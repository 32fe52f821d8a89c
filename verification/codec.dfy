/**
 * The record <-> row codec of `writeToCSV` and `readFromCSV`. A row is the list of
 * fields `encoding/csv` writes or reads for one line; the quoting of the CSV text
 * itself is that library's business and is not modelled.
 */
module Codec {
  import opened Wrappers
  import opened Decimal
  import opened Records

  /** The number of columns of every row the program writes and of every data row it reads. */
  const FieldCount: nat := 18

  /** The header row, in column order. */
  const Header: seq<string> := [
    "ID", "Nonce", "TxnType", "BurnHash", "MintHash", "TransferHash", "From", "Destination",
    "Minter", "FromNetwork", "DestinationNetwork", "Amount", "Denom", "Status", "Timestamp",
    "CreatedAt", "Details", "DestinationTimestamp"]

  /** A data row with too few fields; Go indexes past its end and panics. */
  datatype ReadError = ShortRow(line: nat, fields: nat)

  /** `stringOrNil`: an absent optional field is written as the empty field. */
  function StringOrNil(o: Option<string>): (s: string)
    ensures s == "" <==> o == None || o == Some("")
    ensures o.Some? ==> s == o.value
  {
    match o
    case Some(s) => s
    case None => ""
  }

  /** `optionalString`: an empty field is read back as absent. */
  function OptionalString(s: string): (o: Option<string>)
    ensures o.None? <==> s == ""
    ensures o.Some? ==> o.value == s
  {
    if s == "" then None else Some(s)
  }

  /** Writing then reading an optional field is the identity, except that a present "" comes back absent. */
  lemma OptionalRoundTrip(o: Option<string>)
    ensures OptionalString(StringOrNil(o)) == (if o == Some("") then None else o)
    ensures OptionalString(StringOrNil(o)) == o <==> o != Some("")
  {
  }

  /** Reading then writing an optional field gives back every string. */
  lemma StringRoundTrip(s: string)
    ensures StringOrNil(OptionalString(s)) == s
  {
  }

  /** The data row `writeToCSV` emits for one resource. */
  function ToRow(r: Resource): (row: seq<string>)
    ensures |row| == FieldCount
  {
    [r.id, Sprint(r.nonce), r.txnType, r.burnHash, StringOrNil(r.mintHash), r.transferHash,
     r.from, r.destination, StringOrNil(r.minter), r.fromNetwork, r.destinationNetwork,
     r.amount, r.denom, r.status, r.timestamp, r.createdAt, StringOrNil(r.details),
     r.destinationTimestamp]
  }

  /**
   * The resource `readFromCSV` builds from one data row, by column position; None when
   * the row is too short for `record[17]`. Fields past the 18th are ignored.
   */
  function FromRow(row: seq<string>): (r: Option<Resource>)
    ensures r.Some? <==> |row| >= FieldCount
  {
    if |row| < FieldCount then None
    else Some(Resource(
      id := row[0],
      nonce := AtoiOrZero(row[1]),
      txnType := row[2],
      burnHash := row[3],
      mintHash := OptionalString(row[4]),
      transferHash := row[5],
      from := row[6],
      destination := row[7],
      minter := OptionalString(row[8]),
      fromNetwork := row[9],
      destinationNetwork := row[10],
      amount := row[11],
      denom := row[12],
      status := row[13],
      timestamp := row[14],
      createdAt := row[15],
      details := OptionalString(row[16]),
      destinationTimestamp := row[17]))
  }

  /** The one loss of the codec: a present but empty optional field becomes absent. */
  function Collapse(o: Option<string>): Option<string> {
    if o == Some("") then None else o
  }

  /** The resource as it comes back from storage. */
  function Normalize(r: Resource): Resource {
    r.(mintHash := Collapse(r.mintHash), minter := Collapse(r.minter), details := Collapse(r.details))
  }

  /** No optional field of r is present and empty. */
  predicate NoEmptyOptional(r: Resource) {
    r.mintHash != Some("") && r.minter != Some("") && r.details != Some("")
  }

  /**
   * Writing a resource and reading its row back gives the same resource, field by
   * field, except that a present empty optional field comes back absent; in
   * particular the nonce survives through Sprint and Atoi.
   */
  lemma RowRoundTrip(r: Resource)
    ensures FromRow(ToRow(r)) == Some(Normalize(r))
  {
  }

  /** Storage changes a resource exactly when one of its optional fields is present and empty. */
  lemma NormalizeIdentity(r: Resource)
    ensures Normalize(r) == r <==> NoEmptyOptional(r)
  {
  }

  /** The row round trip is the identity exactly when no optional field is present and empty. */
  lemma RowRoundTripExact(r: Resource)
    ensures FromRow(ToRow(r)) == Some(r) <==> NoEmptyOptional(r)
  {
  }

  /**
   * Reading a data row and writing it back reproduces its first 18 fields, except that
   * the nonce column is replaced by the decimal text of the value Atoi gave it.
   */
  lemma ReadThenWriteRow(row: seq<string>)
    requires |row| >= FieldCount
    ensures ToRow(FromRow(row).value) == row[..FieldCount][1 := Sprint(AtoiOrZero(row[1]))]
  {
  }

  /** A nonce column that is not an optional sign followed by digits is read as 0, without an error. */
  lemma MalformedNonceReadsZero(row: seq<string>)
    requires |row| >= FieldCount && !IsIntegerSyntax(row[1])
    ensures FromRow(row).Some? && FromRow(row).value.nonce == 0
  {
  }

  /** The rows `writeToCSV` writes: the header, then one row per resource in input order. */
  function Written(resources: seq<Resource>): (rows: seq<seq<string>>)
    ensures |rows| == |resources| + 1 && rows[0] == Header
    ensures forall i :: 0 <= i < |resources| ==> rows[i + 1] == ToRow(resources[i])
  {
    if resources == [] then [Header]
    else Written(resources[..|resources| - 1]) + [ToRow(resources[|resources| - 1])]
  }

  /**
   * What `readFromCSV` returns for the rows of a file: row 0 is dropped unchecked and
   * every later row becomes one resource, or the first short data row is reported.
   */
  function Decoded(rows: seq<seq<string>>): (res: Result<seq<Resource>, ReadError>)
    ensures res.Ok? <==> forall i :: 1 <= i < |rows| ==> |rows[i]| >= FieldCount
    ensures res.Ok? ==> |res.value| == (if rows == [] then 0 else |rows| - 1)
    ensures res.Ok? ==> forall i :: 0 <= i < |res.value| ==> FromRow(rows[i + 1]) == Some(res.value[i])
    ensures res.Err? ==> 1 <= res.error.line < |rows| && res.error.fields == |rows[res.error.line]|
    ensures res.Err? ==> |rows[res.error.line]| < FieldCount
    ensures res.Err? ==> forall i :: 1 <= i < res.error.line ==> |rows[i]| >= FieldCount
  {
    if |rows| <= 1 then Ok([])
    else
      var init := rows[..|rows| - 1];
      var last := rows[|rows| - 1];
      match Decoded(init)
      case Err(e) => Err(e)
      case Ok(resources) =>
        match FromRow(last)
        case None => Err(ShortRow(|rows| - 1, |last|))
        case Some(r) => Ok(resources + [r])
  }

  /** The header row is never inspected: replacing it changes nothing. */
  lemma DecodedIgnoresHeader(header: seq<string>, other: seq<string>, data: seq<seq<string>>)
    ensures Decoded([header] + data) == Decoded([other] + data)
  {
    var a, b := Decoded([header] + data), Decoded([other] + data);
    assert forall i :: 1 <= i < |data| + 1 ==> ([header] + data)[i] == data[i - 1] == ([other] + data)[i];
    if a.Ok? {
      assert a.value == b.value;
    }
  }

  /** Every resource as it comes back from storage, in order. */
  function Normalized(resources: seq<Resource>): seq<Resource> {
    seq(|resources|, i requires 0 <= i < |resources| => Normalize(resources[i]))
  }

  /**
   * Writing resources and reading the rows back gives them back in order, each with
   * its empty optional fields collapsed to absent.
   */
  lemma WriteThenRead(resources: seq<Resource>)
    ensures Decoded(Written(resources)) == Ok(Normalized(resources))
  {
    var rows := Written(resources);
    assert forall i :: 1 <= i < |rows| ==> |rows[i]| >= FieldCount by {
      forall i | 1 <= i < |rows| ensures |rows[i]| >= FieldCount {
        assert rows[i] == ToRow(resources[i - 1]);
      }
    }
    var back := Decoded(rows).value;
    assert |back| == |resources|;
    forall i | 0 <= i < |resources| ensures back[i] == Normalized(resources)[i] {
      RowRoundTrip(resources[i]);
      assert FromRow(rows[i + 1]) == Some(back[i]);
    }
    assert back == Normalized(resources);
  }

  /** Storage changes a sequence of resources exactly when one has a present empty optional field. */
  lemma NormalizedIdentity(resources: seq<Resource>)
    ensures Normalized(resources) == resources <==>
            forall i :: 0 <= i < |resources| ==> NoEmptyOptional(resources[i])
  {
  }

  /** The round trip is the identity exactly when no resource has a present empty optional field. */
  lemma WriteThenReadExact(resources: seq<Resource>)
    ensures Decoded(Written(resources)) == Ok(resources) <==>
            forall i :: 0 <= i < |resources| ==> NoEmptyOptional(resources[i])
  {
    WriteThenRead(resources);
    NormalizedIdentity(resources);
  }

  /** `writeToCSV`'s loop: the header, then each resource's row. */
  method WriteToCsv(resources: seq<Resource>) returns (rows: seq<seq<string>>)
    ensures rows == Written(resources)
  {
    rows := [Header];
    for i := 0 to |resources|
      invariant rows == Written(resources[..i])
    {
      assert resources[..i + 1][..i] == resources[..i];
      rows := rows + [ToRow(resources[i])];
    }
    assert resources[..|resources|] == resources;
  }

  /** One more data row: the decoded prefix grows by that row's resource. */
  lemma DecodedStep(rows: seq<seq<string>>, i: nat, resources: seq<Resource>)
    requires 1 <= i < |rows| && |rows[i]| >= FieldCount
    requires Decoded(rows[..i]) == Ok(resources)
    ensures Decoded(rows[..i + 1]) == Ok(resources + [FromRow(rows[i]).value])
  {
    assert rows[..i + 1][..i] == rows[..i];
  }

  /** A short row after a prefix that decodes is the first short row, so it is the one reported. */
  lemma DecodedFirstShort(rows: seq<seq<string>>, i: nat)
    requires 1 <= i < |rows| && |rows[i]| < FieldCount
    requires Decoded(rows[..i]).Ok?
    ensures Decoded(rows) == Err(ShortRow(i, |rows[i]|))
  {
  }

  /** `readFromCSV`'s loop: skip row 0, build one resource per later row. */
  method ReadFromCsv(rows: seq<seq<string>>) returns (res: Result<seq<Resource>, ReadError>)
    ensures res == Decoded(rows)
  {
    var resources: seq<Resource> := [];
    for i := 0 to |rows|
      invariant Decoded(rows[..i]) == Ok(resources)
    {
      if i == 0 {
        continue;
      }
      var record := rows[i];
      if |record| < FieldCount {
        DecodedFirstShort(rows, i);
        return Err(ShortRow(i, |record|));
      }
      DecodedStep(rows, i, resources);
      resources := resources + [FromRow(record).value];
    }
    assert rows[..|rows|] == rows;
    res := Ok(resources);
  }
}
