/** What main (serato2cue.py:65-112) computes, as functions of the exported
    rows: ingestion, gap reconciliation, elapsed accumulation and rendering,
    and the text written to standard output.  The imperative main is in
    module Convert and is proved to compute these. */
module Session {
  import opened Errors
  import opened Clock
  import opened Tracks

  // ---------------------------------------------------------------- preamble

  /** f"{recorded_date}" */
  function DateText(recordedDate: Option<string>): string
  {
    match recordedDate
    case None => "None"
    case Some(d) => d
  }

  /** The f-string preamble of main, with the stray quote after the date. */
  function PreambleFor(recordedDate: Option<string>): string
  {
    "REM COMMENT \"Recorded by Serato DJ\"\nREM DATE " + DateText(recordedDate) + "\"\nFILE \"noname.wav\" WAV"
  }

  /** main evaluates the preamble while recorded_date is still None, so the
      captured session date never reaches the output. */
  const Preamble: string := PreambleFor(None)

  /** Every CUE sheet begins with these three lines, "REM DATE None" and its
      stray quote included, whatever date the session rows hold. */
  lemma PreambleText()
    ensures Preamble == "REM COMMENT \"Recorded by Serato DJ\"\nREM DATE None\"\nFILE \"noname.wav\" WAV"
  {
  }

  // --------------------------------------------------------------- ingestion

  /** The fields a track row must supply for Track(...) to be built. */
  predicate RowParses(row: seq<string>, date: string)
  {
    |row| >= 4 && TimeFromString(row[2], date).Ok? && TimeFromString(row[3], date).Ok?
  }

  /** t is the Track that row builds with the given index and session date. */
  predicate BuiltFrom(t: TrackRecord, row: seq<string>, index: nat, date: string)
  {
    && RowParses(row, date)
    && t == TrackRecord(index, row[0], row[1],
                        TimeFromString(row[2], date).value, TimeFromString(row[3], date).value, 0)
  }

  /** The Track(...) call for one row: its arguments are evaluated left to
      right, so a missing field raises IndexError before a later time field is
      parsed, and a bad start time raises before the end field is read. */
  function ParseRow(row: seq<string>, index: nat, date: string): (r: Result<TrackRecord>)
    ensures r.Ok? <==> RowParses(row, date)
    ensures r.Ok? ==> BuiltFrom(r.value, row, index, date)
    ensures |row| < 3 ==> r == Err(IndexError)
    ensures |row| >= 3 && !RowParses(row, date) ==>
      r == Err(if TimeFromString(row[2], date).Ok? && |row| < 4 then IndexError else ValueError)
  {
    if |row| < 3 then Err(IndexError)
    else match TimeFromString(row[2], date)
      case Err(e) => Err(e)
      case Ok(start) =>
        if |row| < 4 then Err(IndexError)
        else match TimeFromString(row[3], date)
          case Err(e) => Err(e)
          case Ok(end) => Ok(TrackRecord(index, row[0], row[1], start, end, 0))
  }

  /** The tracks built from rows[2..n]; the first failing row decides the
      error. */
  function IngestPrefix(rows: seq<seq<string>>, date: string, n: nat): (r: Result<seq<TrackRecord>>)
    requires 2 <= n <= |rows|
    decreases n
  {
    if n == 2 then Ok([])
    else match IngestPrefix(rows, date, n - 1)
      case Err(e) => Err(e)
      case Ok(ts) =>
        match ParseRow(rows[n - 1], n - 2, date)
        case Err(e) => Err(e)
        case Ok(t) => Ok(ts + [t])
  }

  /** The ingestion loop: row 0 is a header, row 1 holds the session date in
      its first field, every later row becomes a track. */
  function Ingested(rows: seq<seq<string>>): (r: Result<seq<TrackRecord>>)
    ensures r.Ok? ==> |r.value| == if |rows| < 2 then 0 else |rows| - 2
    ensures 2 <= |rows| && |rows[1]| == 0 ==> r == Err(IndexError)
  {
    if |rows| < 2 then Ok([])
    else if |rows[1]| == 0 then Err(IndexError)
    else
      var r := IngestPrefix(rows, rows[1][0], |rows|);
      if r.Ok? then IngestPrefixBuilt(rows, rows[1][0], |rows|); r else r
  }

  /** If every row of rows[2..n] parses, ingesting them succeeds. */
  lemma {:induction false} IngestPrefixOk(rows: seq<seq<string>>, date: string, n: nat)
    requires 2 <= n <= |rows|
    requires forall p :: 2 <= p < n ==> RowParses(rows[p], date)
    ensures IngestPrefix(rows, date, n).Ok?
    decreases n
  {
    if n > 2 {
      IngestPrefixOk(rows, date, n - 1);
      assert RowParses(rows[n - 1], date);
    }
  }

  /** If ingesting rows[2..n] succeeds, every one of them parses. */
  lemma {:induction false} IngestPrefixParses(rows: seq<seq<string>>, date: string, n: nat, p: nat)
    requires 2 <= p < n <= |rows| && IngestPrefix(rows, date, n).Ok?
    ensures RowParses(rows[p], date)
    decreases n
  {
    if p < n - 1 {
      IngestPrefixParses(rows, date, n - 1, p);
    }
  }

  /** Ingestion of rows[2..n] succeeds exactly when every one of them
      parses. */
  lemma IngestPrefixOkIff(rows: seq<seq<string>>, date: string, n: nat)
    requires 2 <= n <= |rows|
    ensures IngestPrefix(rows, date, n).Ok? <==> forall p :: 2 <= p < n ==> RowParses(rows[p], date)
  {
    if forall p :: 2 <= p < n ==> RowParses(rows[p], date) {
      IngestPrefixOk(rows, date, n);
    }
    if IngestPrefix(rows, date, n).Ok? {
      forall p | 2 <= p < n ensures RowParses(rows[p], date) {
        IngestPrefixParses(rows, date, n, p);
      }
    }
  }

  lemma {:induction false} IngestPrefixBuilt(rows: seq<seq<string>>, date: string, n: nat)
    requires 2 <= n <= |rows| && IngestPrefix(rows, date, n).Ok?
    ensures |IngestPrefix(rows, date, n).value| == n - 2
    ensures forall k :: 0 <= k < n - 2 ==>
      BuiltFrom(IngestPrefix(rows, date, n).value[k], rows[k + 2], k + 1, date)
    decreases n
  {
    if n > 2 {
      IngestPrefixBuilt(rows, date, n - 1);
      var prev := IngestPrefix(rows, date, n - 1).value;
      var t := ParseRow(rows[n - 1], n - 2, date).value;
      assert IngestPrefix(rows, date, n).value == prev + [t];
    }
  }

  /** The first row that fails aborts the whole ingestion with its error. */
  lemma {:induction false} IngestPrefixFails(rows: seq<seq<string>>, date: string, n: nat, m: nat)
    requires 2 <= n <= m <= |rows| && IngestPrefix(rows, date, n).Err?
    ensures IngestPrefix(rows, date, m) == IngestPrefix(rows, date, n)
    decreases m
  {
    if m > n {
      IngestPrefixFails(rows, date, n, m - 1);
    }
  }

  /** The ingestion rules: with R >= 2 rows, exactly R - 2 tracks; track k
      (from 1) is the one row k + 1 builds with index k (title and author
      verbatim, times parsed against the date of row 1, elapsed 0). */
  lemma IngestedShape(rows: seq<seq<string>>)
    requires Ingested(rows).Ok?
    ensures |rows| < 2 ==> Ingested(rows).value == []
    ensures |rows| >= 2 ==>
      && |rows[1]| >= 1
      && |Ingested(rows).value| == |rows| - 2
      && forall k :: 0 <= k < |rows| - 2 ==>
           BuiltFrom(Ingested(rows).value[k], rows[k + 2], k + 1, rows[1][0])
  {
    if |rows| >= 2 {
      IngestPrefixBuilt(rows, rows[1][0], |rows|);
    }
  }

  /** Ingestion succeeds exactly when row 1 has a field and every later row
      has four fields whose two times parse against that date. */
  lemma IngestedOkIff(rows: seq<seq<string>>)
    ensures Ingested(rows).Ok? <==>
      (|rows| < 2 || (|rows[1]| >= 1 && forall p :: 2 <= p < |rows| ==> RowParses(rows[p], rows[1][0])))
  {
    if |rows| >= 2 && |rows[1]| >= 1 {
      IngestPrefixOkIff(rows, rows[1][0], |rows|);
    }
  }

  // ---------------------------------------------------------- reconciliation

  /** The reconciliation loop: every track but the last takes the next
      track's start as its end. */
  function Reconciled(ts: seq<TrackRecord>): (r: seq<TrackRecord>)
    ensures |r| == |ts|
  {
    if |ts| <= 1 then ts
    else [ts[0].(endTime := ts[1].startTime)] + Reconciled(ts[1..])
  }

  /** Each end equals the next start. */
  ghost predicate Chained(ts: seq<TrackRecord>)
  {
    forall i :: 0 <= i < |ts| - 1 ==> ts[i].endTime == ts[i + 1].startTime
  }

  /** After reconciliation track i's end is track i + 1's start, the last
      track keeps its parsed end, and nothing else changes. */
  lemma {:induction false} ReconciledAt(ts: seq<TrackRecord>, i: nat)
    requires i < |ts|
    ensures Reconciled(ts)[i] == if i < |ts| - 1 then ts[i].(endTime := ts[i + 1].startTime) else ts[i]
    decreases |ts|
  {
    if |ts| > 1 && i > 0 {
      ReconciledAt(ts[1..], i - 1);
    }
  }

  /** Reconciliation chains the tracks, keeps the last one as parsed and
      changes no field but the end time. */
  lemma {:induction false} ReconciledChained(ts: seq<TrackRecord>)
    ensures Chained(Reconciled(ts))
    ensures |ts| >= 1 ==> Reconciled(ts)[|ts| - 1] == ts[|ts| - 1]
    ensures forall i :: 0 <= i < |ts| ==>
      var r := Reconciled(ts)[i];
      r.index == ts[i].index && r.title == ts[i].title && r.author == ts[i].author
      && r.startTime == ts[i].startTime && r.elapsed == ts[i].elapsed
    ensures |ts| <= 1 ==> Reconciled(ts) == ts
  {
    var r := Reconciled(ts);
    forall i | 0 <= i < |ts|
      ensures r[i].index == ts[i].index && r[i].title == ts[i].title && r[i].author == ts[i].author
      ensures r[i].startTime == ts[i].startTime && r[i].elapsed == ts[i].elapsed
      ensures i < |ts| - 1 ==> r[i].endTime == ts[i + 1].startTime
    {
      ReconciledAt(ts, i);
    }
    if |ts| >= 1 {
      ReconciledAt(ts, |ts| - 1);
    }
  }

  // ------------------------------------------------------------ accumulation

  /** The sum of the lengths of ts. */
  function SumLengths(ts: seq<TrackRecord>): (s: int)
    ensures (forall k :: 0 <= k < |ts| ==> ts[k].Length() >= 0) ==> s >= 0
  {
    if ts == [] then 0 else SumLengths(ts[..|ts| - 1]) + ts[|ts| - 1].Length()
  }

  lemma SumLengthsStep(ts: seq<TrackRecord>, i: nat)
    requires i < |ts|
    ensures SumLengths(ts[..i + 1]) == SumLengths(ts[..i]) + ts[i].Length()
  {
    assert ts[..i + 1][..i] == ts[..i];
  }

  /** Chained lengths telescope to last end minus first start. */
  lemma {:induction false} Telescoping(ts: seq<TrackRecord>)
    requires |ts| >= 1 && Chained(ts)
    ensures SumLengths(ts) == ts[|ts| - 1].endTime - ts[0].startTime
    decreases |ts|
  {
    if |ts| > 1 {
      var init := ts[..|ts| - 1];
      assert Chained(init);
      Telescoping(init);
    }
  }

  /** After reconciliation the total length is the span from the first start
      to the last (parsed) end. */
  lemma ReconciledTotal(ts: seq<TrackRecord>)
    requires |ts| >= 1
    ensures SumLengths(Reconciled(ts)) == ts[|ts| - 1].endTime - ts[0].startTime
  {
    ReconciledChained(ts);
    Telescoping(Reconciled(ts));
  }

  /** The tracks with elapsed set as the accumulation loop sets it: the sum of
      the lengths of all earlier tracks. */
  function WithElapsed(ts: seq<TrackRecord>): (r: seq<TrackRecord>)
    ensures |r| == |ts|
  {
    seq(|ts|, k requires 0 <= k < |ts| => ts[k].(elapsed := SumLengths(ts[..k])))
  }

  /** After reconciliation the elapsed time of track k is how long after the
      first track it starts. */
  lemma ElapsedIsOffset(ts: seq<TrackRecord>, k: nat)
    requires k < |ts|
    ensures WithElapsed(Reconciled(ts))[k].elapsed == ts[k].startTime - ts[0].startTime
  {
    var r := Reconciled(ts);
    ReconciledChained(ts);
    if k > 0 {
      var pre := r[..k];
      assert Chained(pre);
      Telescoping(pre);
      ReconciledAt(ts, k - 1);
    }
  }

  /** With non-decreasing start times the elapsed times start at zero and never
      decrease, and when the last track's end is not before its start the
      final accumulator is at least the last elapsed time. */
  lemma ElapsedMonotone(ts: seq<TrackRecord>)
    requires forall i, j :: 0 <= i <= j < |ts| ==> ts[i].startTime <= ts[j].startTime
    ensures |ts| >= 1 ==> WithElapsed(Reconciled(ts))[0].elapsed == 0
    ensures forall i, j :: 0 <= i <= j < |ts| ==>
      WithElapsed(Reconciled(ts))[i].elapsed <= WithElapsed(Reconciled(ts))[j].elapsed
    ensures |ts| >= 1 && ts[|ts| - 1].startTime <= ts[|ts| - 1].endTime ==>
      WithElapsed(Reconciled(ts))[|ts| - 1].elapsed <= SumLengths(Reconciled(ts))
  {
    forall k | 0 <= k < |ts| {
      ElapsedIsOffset(ts, k);
    }
    if |ts| >= 1 {
      ReconciledTotal(ts);
    }
  }

  // --------------------------------------------------------------- rendering

  /** The blocks of ts concatenated in order; the first block that does not
      render decides the error. */
  function Rendered(ts: seq<TrackRecord>): (r: Result<string>)
    ensures r.Err? ==> r.error == ValueError
    ensures r.Ok? ==> |r.value| >= 8 * |ts|
  {
    if ts == [] then Ok("")
    else match Rendered(ts[..|ts| - 1])
      case Err(e) => Err(e)
      case Ok(s) =>
        match ts[|ts| - 1].Render()
        case Err(e) => Err(e)
        case Ok(b) => Ok(s + b)
  }

  lemma RenderedStep(ts: seq<TrackRecord>, i: nat)
    requires i < |ts|
    requires Rendered(ts[..i]).Ok?
    ensures ts[i].Render().Ok? ==> Rendered(ts[..i + 1]) == Ok(Rendered(ts[..i]).value + ts[i].Render().value)
    ensures ts[i].Render().Err? ==> Rendered(ts[..i + 1]) == Err(ts[i].Render().error)
  {
    assert ts[..i + 1][..i] == ts[..i];
  }

  /** Once a prefix fails to render, so does the whole sequence, with the
      same error. */
  lemma {:induction false} RenderedPrefix(ts: seq<TrackRecord>, j: nat)
    requires j <= |ts| && Rendered(ts[..j]).Err?
    ensures Rendered(ts) == Rendered(ts[..j])
    decreases |ts|
  {
    if j < |ts| {
      assert ts[..|ts| - 1][..j] == ts[..j];
      RenderedPrefix(ts[..|ts| - 1], j);
    } else {
      assert ts[..j] == ts;
    }
  }

  /** Rendering succeeds exactly when every elapsed time is below one day and
      not negative. */
  lemma {:induction false} RenderedOkIff(ts: seq<TrackRecord>)
    ensures Rendered(ts).Ok? <==> forall k :: 0 <= k < |ts| ==> 0 <= ts[k].elapsed < 86400
    decreases |ts|
  {
    if ts != [] {
      var init, last := ts[..|ts| - 1], ts[|ts| - 1];
      RenderedOkIff(init);
      assert last.Render().Ok? <==> 0 <= last.elapsed < 86400;
      assert ts == init + [last];
      if Rendered(ts).Ok? {
        assert Rendered(init).Ok? && last.Render().Ok?;
      } else {
        assert Rendered(init).Err? || last.Render().Err?;
      }
    }
  }

  // ------------------------------------------------------------------ output

  /** The text main builds: the preamble and the blocks of the reconciled
      tracks with their accumulated elapsed times, or the exception that
      aborts the run. */
  function Output(rows: seq<seq<string>>): (r: Result<string>)
    ensures r.Ok? ==> |Preamble| <= |r.value| && r.value[..|Preamble|] == Preamble
    ensures Ingested(rows).Ok? && r.Err? ==> r.error == ValueError
  {
    match Ingested(rows)
    case Err(e) => Err(e)
    case Ok(ts) =>
      match Rendered(WithElapsed(Reconciled(ts)))
      case Err(e) => Err(e)
      case Ok(body) => Ok(Preamble + body)
  }

  /** No track starts before the first one. */
  predicate NoEarlierStart(ts: seq<TrackRecord>)
  {
    forall k :: 0 <= k < |ts| ==> ts[0].startTime <= ts[k].startTime
  }

  /** A run produces a CUE sheet exactly when ingestion succeeds and no track
      starts before the first one (the session does not wrap past midnight);
      every INDEX 00 field is then within one day. */
  lemma OutputOkIff(rows: seq<seq<string>>)
    ensures Output(rows).Ok? <==> Ingested(rows).Ok? && NoEarlierStart(Ingested(rows).value)
  {
    if Ingested(rows).Ok? {
      var ts := Ingested(rows).value;
      IngestedShape(rows);
      if |rows| >= 2 {
        IngestPrefixBuilt(rows, rows[1][0], |rows|);
      }
      forall k | 0 <= k < |ts| {
        ElapsedIsOffset(ts, k);
      }
      RenderedOkIff(WithElapsed(Reconciled(ts)));
    }
  }

  /** What the run writes to standard output: print(out) is reached only when
      nothing raised, so a failed run writes nothing. */
  function StandardOutput(rows: seq<seq<string>>): (s: string)
    ensures s == "" <==> Output(rows).Err?
  {
    match Output(rows)
    case Ok(out) => out + "\n"
    case Err(_) => ""
  }
}
