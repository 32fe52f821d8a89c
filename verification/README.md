# cctp-money/stats in Dafny

A model of the one Go program `main.go`, which pages through a transaction API, writes
every transaction record (`Resource`) to a CSV file, reads the file back and shows how
much was transferred from and to the `noble` network. The model covers its four pieces of
sequential logic:

- **Decimal integers** (`decimal.dfy`, module `Decimal`): `fmt.Sprint` on an `int` and
  `strconv.Atoi`, with the program's habit of dropping Atoi's error so that bad text reads
  as 0.
- **Record <-> row codec** (`codec.dfy`, module `Codec`; the record type is in
  `records.dfy`): `writeToCSV` and `readFromCSV` at the level of rows, a row being the list
  of fields of one CSV line. This includes the `stringOrNil` / `optionalString` pair, which
  loses the difference between an absent optional field and a present empty one.
- **Aggregation** (`aggregate.dfy`, module `Aggregate`): the loop of `read`, with the
  if / else-if precedence, and Go's truncating division by 1,000,000 for display.
- **Pagination** (`pagination.dfy`, module `Pagination`): the loop of `fetch`. The
  transport is a function from offset to reply (a page of records or a failure).
  `program.dfy` (module `Program`) puts `fetch`, `read` and `main` together. It passes
  the rows from the write phase to the read phase in place of the file.

The loops of `read`, `fetch`, `writeToCSV` and `readFromCSV` are methods. Each is proved
equal to a specification function (`SumWhere`, `IsFetchRun`/`Gathered`, `Written`,
`Decoded`), and the lemmas state the properties of those functions.

Two points where the model makes a choice the code leaves open:

- A data row that reaches the loop of `readFromCSV` with fewer than 18 fields makes Go
  panic at the first index it lacks (`record[1]` for a one-field row). The model returns
  `Err(ShortRow(line, fields))` for the first such row. Fields after the 18th are ignored,
  as the Go indexing ignores them. Behind the program's own 18-field header such a row
  never gets that far: `encoding/csv` rejects it first (see "## Left out").
- Amounts are not assumed to be well formed. They go through `strconv.Atoi`, so an
  unparsable amount counts 0 and a negative one counts negatively. For that reason the
  display division truncates toward zero, as Go's does, so -2,500,000 shows as -2.

## Model

| member | source | states |
|---|---|---|
| `Decimal.NatDigits` | main.go:148 | the decimal text of a natural number is non-empty, all digits, has no leading zero, and has that number as its value |
| `Decimal.Sprint` | main.go:148 | `fmt.Sprint` of an int always produces canonical decimal text (no '+', no leading zero, "-" only before a non-zero digit) that Atoi accepts |
| `Decimal.Atoi` | main.go:201 | Atoi succeeds exactly on an optional '+'/'-' followed by one or more digits, and on nothing else (empty text included) |
| `Decimal.AtoiOrZero` | main.go:201 | with the error dropped, any text Atoi rejects reads as 0 |
| `Decimal.AtoiDigits` | main.go:83 | unsigned digits, leading zeros included, parse to the value of those digits |
| `Decimal.AtoiSigned` | main.go:86 | a '+' before digits parses to their value and a '-' to its negation ("-0" is 0) |
| `Decimal.AtoiValue` | main.go:83-86 | the value of every text Atoi accepts: the digits' value, negated after '-'; a '+' sign or a leading zero changes nothing, so amounts like "+5" and "007" count 5 and 7 |
| `Decimal.AtoiSprint` | main.go:201 | round trip: parsing the rendering of any integer n gives n back |
| `Decimal.SprintAtoi` | main.go:148 | reverse round trip: rendering the parsed value of canonical text gives that text back |
| `Decimal.SprintInjective` | main.go:148 | distinct nonces are written as distinct text |
| `Codec.StringOrNil` | main.go:175-180 | a present field is written as its text; the written field is empty exactly when the value is absent or a present "" |
| `Codec.OptionalString` | main.go:228-233 | a field reads as absent exactly when it is empty, and otherwise as present with that text |
| `Codec.OptionalRoundTrip` | main.go:228-233 | `optionalString(stringOrNil(o))` is `o` with a present "" collapsed to absent, and equals `o` exactly when `o` is not a present "" |
| `Codec.StringRoundTrip` | main.go:175-180 | `stringOrNil(optionalString(s)) == s` for every string |
| `Codec.ToRow` | main.go:146-165 | every written data row has exactly 18 fields |
| `Codec.FromRow` | main.go:201-221 | a row gives a resource exactly when it has at least the 18 fields the code indexes |
| `Codec.NormalizeIdentity` | main.go:228-233 | storage changes a resource exactly when one of its optional fields is present and empty |
| `Codec.RowRoundTrip` | main.go:201-221 | reading the row written for a resource gives the resource back, field by field (nonce included), except that present empty optional fields become absent |
| `Codec.RowRoundTripExact` | main.go:201-221 | that row round trip is the identity if and only if no optional field is present and empty |
| `Codec.ReadThenWriteRow` | main.go:146-165 | reading a row of at least 18 fields and writing it back reproduces its first 18 fields, except that the nonce column becomes the decimal text of its Atoi value |
| `Codec.MalformedNonceReadsZero` | main.go:201 | a row whose nonce column is not sign-plus-digits is still read, with nonce 0 |
| `Codec.Written` | main.go:139-169 | the written rows are the 18-name header followed by exactly one row per resource, in input order |
| `Codec.Decoded` | main.go:195-224 | reading succeeds exactly when every row after the first has at least 18 fields, and then it gives `len(rows) - 1` resources (none for no rows), resource i being built from row i+1; otherwise it reports the first short data row, its line and its field count |
| `Codec.DecodedFirstShort` | main.go:201-220 | a short data row after rows that all decode is the row reported, with its line and field count |
| `Codec.DecodedIgnoresHeader` | main.go:196-200 | row 0 is dropped unchecked: replacing it never changes the result |
| `Codec.WriteThenRead` | main.go:196-221 | writing resources and reading the rows back gives every resource back, in order, with present empty optional fields collapsed to absent |
| `Codec.NormalizedIdentity` | main.go:202-221 | storage changes a sequence of resources exactly when one of them has a present empty optional field |
| `Codec.WriteThenReadExact` | main.go:196-221 | the write/read round trip is the identity if and only if no resource has a present empty optional field |
| `Codec.WriteToCsv` | main.go:139-169 | the writing loop produces exactly the rows of `Written` |
| `Codec.ReadFromCsv` | main.go:195-224 | the reading loop produces exactly the result of `Decoded`, stopping at the first short data row |
| `Aggregate.AmountOf` | main.go:83-86 | a record's amount is Atoi's value of its `amount` column when that column parses, and 0 when it does not |
| `Aggregate.IsOutbound` | main.go:82 | the first branch counts only records that touch noble |
| `Aggregate.IsInbound` | main.go:85 | the else-if branch never counts a record the first branch counted, and together the two branches count exactly the records with noble as either network |
| `Aggregate.UntouchedTotalsZero` | main.go:81-89 | records that never have noble as either network leave both totals at 0 |
| `Aggregate.ReportOf` | main.go:90-93 | the shown pair is (to, from), and it is 0 and 0 when no record has noble as either network |
| `Aggregate.DisplayUnits` | main.go:91 | the shown value is the total divided by 1,000,000 truncated toward zero: floor for a non-negative total, ceiling for a negative one |
| `Aggregate.DisplayExamples` | main.go:93 | 2,500,000 shows as 2, 5,000,000 as 5, -2,500,000 as -2 and 999,999 as 0 |
| `Aggregate.Tally` | main.go:79-89 | the loop's fromTotal is the sum of the amounts of records from noble, and its toTotal is the sum over records not from noble but bound for noble |
| `Aggregate.Read` | main.go:77-94 | `read` shows the truncated totals of the decoded records, or reports the short row the Go code would panic on |
| `Aggregate.SumWhereAppend` | main.go:81-89 | each total over a concatenation is the sum of the totals over the parts |
| `Aggregate.OutboundCountsOnce` | main.go:82-84 | a record from noble adds its amount to fromTotal and nothing to toTotal, even when its destination is noble too |
| `Aggregate.InboundCountsOnce` | main.go:85-87 | a record bound for noble from elsewhere adds its amount to toTotal and nothing to fromTotal |
| `Aggregate.IgnoredRecord` | main.go:81-89 | a record touching neither network, or one whose amount does not parse, changes neither total |
| `Aggregate.TotalsPartitionTouching` | main.go:82-88 | no double counting: fromTotal + toTotal is the sum over every record with noble as either network |
| `Aggregate.TotalsSurviveStorage` | main.go:78-89 | the codec's loss does not affect either total |
| `Aggregate.EmptyInputShowsZero` | main.go:78-80 | rows holding at most the header decode to no records and show 0 and 0 |
| `Pagination.FetchAll` | main.go:98-122 | the offsets requested are 0, limit, 2·limit, …; no request before the last ends the loop, the last one does (short page or failure), and the accumulator is the in-order concatenation of the pages returned |
| `Pagination.FetchRunUnique` | main.go:102-122 | a transport determines the request count and the gathered records |
| `Pagination.GatheredPrefix` | main.go:110 | pages are only appended: what earlier requests gathered is a prefix of what later ones gather |
| `Pagination.FullPagesLength` | main.go:113-115 | requests that did not end the loop returned at least `limit` records each |
| `Pagination.FetchRunLength` | main.go:113-118 | a run of n requests gathers at least (n - 1)·limit records |
| `Pagination.FailureKeepsEarlierPages` | main.go:103-107 | a run that ends on a failure keeps exactly the pages before it |
| `Pagination.ThreePages` | main.go:113-115 | pages of 1000, 1000 and 400 records with limit 1000 take 3 requests and gather 2400 records |
| `Pagination.EmptyLastPage` | main.go:113-118 | a full page then an empty one takes 2 requests and keeps the first page |
| `Pagination.SecondRequestFails` | main.go:103-110 | if the second request fails, the run stops after 2 requests with the first page only |
| `Program.Fetch` | main.go:96-127 | `fetch` writes exactly the rows for what the pagination run gathered, a partial set included |
| `Program.ReportSurvivesStorage` | main.go:72-75 | the rows written for any records decode without error, and the totals read back equal the totals of those records |
| `Program.Run` | main.go:72-75 | `main` shows the truncated totals of exactly the records the pagination run fetched |

## Left out

- The HTTP request, body read and JSON decoding of `fetchTransactions` (main.go:45-70). They are network I/O and a library. The transport is an abstract function from offset to `Page(records)` or `Failed(cause)`.
- `Pagination.FetchAll`: requires that some request ends the loop (a short page or a failure). The Go loop never terminates against a server that returns full pages forever, and the model does not include that case.
- The one-second `time.Sleep` between pages. It is timing only.
- Creating, opening and closing the file, and `encoding/csv`'s quoting and escaping. Rows are modelled as lists of fields. A failed write is not modelled either.
- `encoding/csv`'s check that every line has as many fields as the first line. In the program a data row shorter than the 18-field header is rejected by `ReadAll`, so `readFromCSV` returns an error and `read` shows 0 and 0. The panic that `Codec.Decoded` reports as `ShortRow` happens only when the first line is just as short.
- `Program.Run` hands the rows written by `Program.Fetch` straight to the read phase. This assumes `encoding/csv` reads back exactly the fields it wrote. That fails for a field containing "\r\n", which comes back as "\n". The totals are unaffected, because a network name or amount holding a line break neither equals "noble" nor parses, before or after.
- A failed open or parse of the file in `read` gives no records, and so 0 and 0. That failure is file I/O. The model states only that empty input shows 0 and 0 (`Aggregate.EmptyInputShowsZero`).
- The `println` / `fmt.Printf` output. The model returns what would be printed: the fetched records and the two displayed totals. The fixed URL and file name are also left out.
- Go's 64-bit `int`: nonces, amounts and running sums are unbounded integers. Overflow and Atoi's clamping of out-of-range text are not modelled.
