/**
 * The aggregation of `read`: one pass over the stored records that adds each parsed
 * amount to the "from noble" total or, failing that, to the "to noble" total, and
 * shows both in display units.
 */
module Aggregate {
  import opened Wrappers
  import opened Decimal
  import opened Records
  import opened Codec

  /** The network the totals are about. */
  const Target: string := "noble"

  /** Base units per display unit. */
  const Scale: nat := 1000000

  /** The two totals as shown, in display units. */
  datatype Report = Report(toTarget: int, fromTarget: int)

  /** The amount a record contributes: its `amount` column through Atoi, 0 if that fails. */
  function AmountOf(r: Resource): (amount: int)
    ensures IsIntegerSyntax(r.amount) ==> Atoi(r.amount) == Some(amount)
    ensures !IsIntegerSyntax(r.amount) ==> amount == 0
  {
    AtoiOrZero(r.amount)
  }

  /** Counted in the "from" total: the first branch of the if. */
  predicate IsOutbound(r: Resource)
    ensures IsOutbound(r) ==> Touches(r)
  {
    r.fromNetwork == Target
  }

  /** Counted in the "to" total: the else-if branch, reached only when the first did not match. */
  predicate IsInbound(r: Resource)
    ensures IsInbound(r) ==> !IsOutbound(r)
    ensures IsInbound(r) || IsOutbound(r) <==> Touches(r)
  {
    r.fromNetwork != Target && r.destinationNetwork == Target
  }

  /** Either of the record's networks is the target. */
  predicate Touches(r: Resource) {
    r.fromNetwork == Target || r.destinationNetwork == Target
  }

  /** The sum of the amounts of the records that satisfy `counted`. */
  function SumWhere(records: seq<Resource>, counted: Resource -> bool): int {
    if records == [] then 0
    else
      var last := records[|records| - 1];
      SumWhere(records[..|records| - 1], counted) + (if counted(last) then AmountOf(last) else 0)
  }

  /**
   * Go's `total / 1000000` on an int: the quotient truncated toward zero, so 2500000
   * shows as 2 and -2500000 as -2.
   */
  function DisplayUnits(total: int): (shown: int)
    ensures total >= 0 ==> 0 <= shown * Scale <= total < (shown + 1) * Scale
    ensures total < 0 ==> (shown - 1) * Scale < total <= shown * Scale <= 0
  {
    if total >= 0 then total / Scale else -((-total) / Scale)
  }

  /** Truncation, not rounding and not flooring, on the examples the display is meant for. */
  lemma DisplayExamples()
    ensures DisplayUnits(2500000) == 2 && DisplayUnits(5000000) == 5
    ensures DisplayUnits(-2500000) == -2 && DisplayUnits(999999) == 0
  {
  }

  /** The loop of `read`: returns the raw totals (toTotal, fromTotal). */
  method Tally(records: seq<Resource>) returns (toTotal: int, fromTotal: int)
    ensures fromTotal == SumWhere(records, IsOutbound)
    ensures toTotal == SumWhere(records, IsInbound)
  {
    toTotal, fromTotal := 0, 0;
    for i := 0 to |records|
      invariant fromTotal == SumWhere(records[..i], IsOutbound)
      invariant toTotal == SumWhere(records[..i], IsInbound)
    {
      var record := records[i];
      assert records[..i + 1][..i] == records[..i];
      if record.fromNetwork == Target {
        var res := AtoiOrZero(record.amount);
        fromTotal := fromTotal + res;
      } else if record.destinationNetwork == Target {
        var res := AtoiOrZero(record.amount);
        toTotal := toTotal + res;
      }
    }
    assert records[..|records|] == records;
  }

  /**
   * `read` on the rows of the file: decode them, total them, show the totals. A short
   * data row, on which Go panics, is reported as the error.
   */
  method Read(rows: seq<seq<string>>) returns (report: Result<Report, ReadError>)
    ensures Decoded(rows).Err? ==> report == Err(Decoded(rows).error)
    ensures Decoded(rows).Ok? ==> report == Ok(ReportOf(Decoded(rows).value))
  {
    var records := ReadFromCsv(rows);
    if records.Err? {
      return Err(records.error);
    }
    var toTotal, fromTotal := Tally(records.value);
    report := Ok(Report(DisplayUnits(toTotal), DisplayUnits(fromTotal)));
  }

  /** The report `read` shows for a sequence of records; records that never touch the target show 0 and 0. */
  function ReportOf(records: seq<Resource>): (report: Report)
    ensures (forall i :: 0 <= i < |records| ==> !Touches(records[i])) ==> report == Report(0, 0)
  {
    UntouchedTotalsZero(records);
    Report(DisplayUnits(SumWhere(records, IsInbound)), DisplayUnits(SumWhere(records, IsOutbound)))
  }

  /** Records that never touch the target add nothing to either total. */
  lemma UntouchedTotalsZero(records: seq<Resource>)
    ensures (forall i :: 0 <= i < |records| ==> !Touches(records[i])) ==>
            SumWhere(records, IsOutbound) == 0 && SumWhere(records, IsInbound) == 0
  {
    if forall i :: 0 <= i < |records| ==> !Touches(records[i]) {
      UntouchedSumsZero(records, IsOutbound);
      UntouchedSumsZero(records, IsInbound);
    }
  }

  /** A sum over records none of which touches the target, counting only records that do, is 0. */
  lemma {:induction false} UntouchedSumsZero(records: seq<Resource>, counted: Resource -> bool)
    requires forall i :: 0 <= i < |records| ==> !Touches(records[i])
    requires forall r :: counted(r) ==> Touches(r)
    ensures SumWhere(records, counted) == 0
  {
    if records != [] {
      UntouchedSumsZero(records[..|records| - 1], counted);
    }
  }

  /** Totals distribute over concatenation: the pass can be split anywhere. */
  lemma {:induction false} SumWhereAppend(a: seq<Resource>, b: seq<Resource>, counted: Resource -> bool)
    ensures SumWhere(a + b, counted) == SumWhere(a, counted) + SumWhere(b, counted)
  {
    if b != [] {
      var b' := b[..|b| - 1];
      assert (a + b)[..|a + b| - 1] == a + b';
      SumWhereAppend(a, b', counted);
    } else {
      assert a + b == a;
    }
  }

  /**
   * A record whose source network is the target adds its amount to the "from" total
   * only, even when its destination is the target too.
   */
  lemma OutboundCountsOnce(records: seq<Resource>, r: Resource)
    requires r.fromNetwork == Target
    ensures SumWhere(records + [r], IsOutbound) == SumWhere(records, IsOutbound) + AmountOf(r)
    ensures SumWhere(records + [r], IsInbound) == SumWhere(records, IsInbound)
  {
  }

  /** A record bound for the target from elsewhere adds its amount to the "to" total only. */
  lemma InboundCountsOnce(records: seq<Resource>, r: Resource)
    requires r.fromNetwork != Target && r.destinationNetwork == Target
    ensures SumWhere(records + [r], IsOutbound) == SumWhere(records, IsOutbound)
    ensures SumWhere(records + [r], IsInbound) == SumWhere(records, IsInbound) + AmountOf(r)
  {
  }

  /** A record that touches neither network, or whose amount does not parse, changes neither total. */
  lemma IgnoredRecord(records: seq<Resource>, r: Resource)
    requires !Touches(r) || !IsIntegerSyntax(r.amount)
    ensures SumWhere(records + [r], IsOutbound) == SumWhere(records, IsOutbound)
    ensures SumWhere(records + [r], IsInbound) == SumWhere(records, IsInbound)
  {
  }

  /** No double counting: together the two totals are the sum over every record that touches the target. */
  lemma {:induction false} TotalsPartitionTouching(records: seq<Resource>)
    ensures SumWhere(records, IsOutbound) + SumWhere(records, IsInbound) == SumWhere(records, Touches)
  {
    if records != [] {
      TotalsPartitionTouching(records[..|records| - 1]);
    }
  }

  /** Storage does not change either total: the codec's loss touches only optional fields. */
  lemma {:induction false} TotalsSurviveStorage(records: seq<Resource>)
    ensures SumWhere(Normalized(records), IsOutbound) == SumWhere(records, IsOutbound)
    ensures SumWhere(Normalized(records), IsInbound) == SumWhere(records, IsInbound)
  {
    if records != [] {
      var init := records[..|records| - 1];
      assert Normalized(records)[..|records| - 1] == Normalized(init);
      TotalsSurviveStorage(init);
    }
  }

  /** An empty file, or one holding only the header, shows 0 and 0. */
  lemma EmptyInputShowsZero(rows: seq<seq<string>>)
    requires |rows| <= 1
    ensures Decoded(rows) == Ok([]) && ReportOf([]) == Report(0, 0)
  {
  }
}
