/**
 * The program's two phases: `fetch` gathers every page and writes the rows, `read`
 * decodes the rows and shows the totals; `main` runs one after the other, with the
 * written rows standing for the file between them.
 */
module Program {
  import opened Wrappers
  import opened Records
  import opened Codec
  import opened Pagination
  import opened Aggregate

  /** Records requested per page. */
  const Limit: nat := 1000

  /**
   * `fetch`: run the pagination loop with the fixed limit, then write what it gathered,
   * a partial set after a failed request included.
   */
  method Fetch(transport: nat -> Reply<Resource>) returns (fetched: seq<Resource>, requests: nat, rows: seq<seq<string>>)
    requires exists k: nat :: StopsAt(transport, Limit, k)
    ensures IsFetchRun(transport, Limit, requests, fetched)
    ensures rows == Written(fetched)
  {
    var offsets;
    fetched, offsets := FetchAll(transport, Limit);
    requests := |offsets|;
    rows := WriteToCsv(fetched);
  }

  /** Storing records does not change the report: the totals read back are those of the records written. */
  lemma ReportSurvivesStorage(records: seq<Resource>)
    ensures Decoded(Written(records)).Ok?
    ensures ReportOf(Decoded(Written(records)).value) == ReportOf(records)
  {
    WriteThenRead(records);
    TotalsSurviveStorage(records);
  }

  /** `main`: fetch, then read back; the report shows the totals of exactly the records fetched. */
  method Run(transport: nat -> Reply<Resource>) returns (fetched: seq<Resource>, requests: nat, report: Result<Report, ReadError>)
    requires exists k: nat :: StopsAt(transport, Limit, k)
    ensures IsFetchRun(transport, Limit, requests, fetched)
    ensures report == Ok(ReportOf(fetched))
  {
    var rows;
    fetched, requests, rows := Fetch(transport);
    report := Read(rows);
    ReportSurvivesStorage(fetched);
  }
}
