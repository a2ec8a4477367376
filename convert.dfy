/** main (serato2cue.py:65-112) as the program runs it: a list of Track
    objects built row by row, their end_time overwritten in place, their
    elapsed set by a running accumulator, and the output text grown by
    concatenation and written once at the end. */
module Convert {
  import opened Errors
  import opened Tracks
  import opened Session

  /** The current values of a list of Track objects. */
  ghost function Records(tracks: seq<Track>): (rs: seq<TrackRecord>)
    reads tracks
    ensures |rs| == |tracks|
    ensures forall i :: 0 <= i < |tracks| ==> rs[i] == tracks[i].Record()
  {
    seq(|tracks|, i reads tracks requires 0 <= i < |tracks| => tracks[i].Record())
  }

  /** No Track object occurs twice in the list. */
  ghost predicate Distinct(tracks: seq<Track>)
  {
    forall i, j :: 0 <= i < j < |tracks| ==> tracks[i] != tracks[j]
  }

  /** The ingestion loop (serato2cue.py:75-95): enumerate(reader, start=-1)
      skips the header, takes the date from row 1 and appends a new Track for
      every later row.  Also returns the recorded date it captured. */
  method ReadTracks(rows: seq<seq<string>>) returns (res: Result<seq<Track>>, recordedDate: Option<string>)
    ensures res.Ok? <==> Ingested(rows).Ok?
    ensures res.Err? ==> res.error == Ingested(rows).error
    ensures res.Ok? ==> Distinct(res.value) && (forall i :: 0 <= i < |res.value| ==> fresh(res.value[i]))
    ensures res.Ok? ==> Records(res.value) == Ingested(rows).value
    ensures recordedDate == if 2 <= |rows| && |rows[1]| >= 1 then Some(rows[1][0]) else None
  {
    var tracks: seq<Track> := [];
    recordedDate := None;
    ghost var built: seq<TrackRecord> := [];
    for p := 0 to |rows|
      invariant p <= 1 ==> recordedDate == None && tracks == [] && built == []
      invariant p >= 2 ==> |rows[1]| >= 1 && recordedDate == Some(rows[1][0])
      invariant p >= 2 ==> IngestPrefix(rows, rows[1][0], p) == Ok(built)
      invariant Distinct(tracks) && forall i :: 0 <= i < |tracks| ==> fresh(tracks[i])
      invariant |tracks| == |built| && forall i :: 0 <= i < |tracks| ==> tracks[i].Record() == built[i]
    {
      var num, row := p - 1, rows[p];
      if num == -1 {  // the header row
        continue;
      }
      if num == 0 {   // the date row
        if |row| == 0 {
          return Err(IndexError), recordedDate;
        }
        recordedDate := Some(row[0]);
        continue;
      }
      var parsed := ParseRow(row, num, recordedDate.value);
      if parsed.Err? {
        IngestPrefixFails(rows, rows[1][0], p + 1, |rows|);
        return Err(parsed.error), recordedDate;
      }
      var r := parsed.value;
      var track := new Track(r.index, r.title, r.author, r.startTime, r.endTime, r.elapsed);
      tracks := tracks + [track];
      built := built + [r];
    }
    res := Ok(tracks);
  }

  /** The reconciliation loop (serato2cue.py:100-103): each track but the
      last takes the next track's start time as its end time. */
  method CloseGaps(tracks: seq<Track>)
    requires Distinct(tracks)
    modifies tracks
    ensures Records(tracks) == Reconciled(old(Records(tracks)))
  {
    ghost var recs := Records(tracks);
    var num := 0;
    while num < |tracks|
      invariant num < |tracks| || num == 0
      invariant forall i :: 0 <= i < num ==> tracks[i].Record() == recs[i].(endTime := recs[i + 1].startTime)
      invariant forall i :: num <= i < |tracks| ==> tracks[i].Record() == recs[i]
    {
      if num >= |tracks| - 1 {
        break;
      }
      assert tracks[num + 1].Record() == recs[num + 1];
      tracks[num].endTime := tracks[num + 1].startTime;
      assert forall k :: 0 <= k < |tracks| && k != num ==> tracks[k] != tracks[num];
      num := num + 1;
    }
    assert num == |tracks| - 1 || |tracks| == 0;
    forall i | 0 <= i < |tracks| ensures Records(tracks)[i] == Reconciled(recs)[i] {
      ReconciledAt(recs, i);
    }
  }

  /** The accumulation loop (serato2cue.py:105-109): each track's elapsed is
      set to the running total, its block is rendered and appended, and its
      length is added to the total.  The blocks are those of the tracks with
      their accumulated elapsed times; when a block fails to render the run
      stops there, with every track up to and including that one updated
      (visited of them). */
  method RenderTracks(tracks: seq<Track>, ghost recs: seq<TrackRecord>) returns (res: Result<string>, elapsed: int, ghost visited: nat)
    requires Distinct(tracks) && |recs| == |tracks|
    requires forall k :: 0 <= k < |tracks| ==> tracks[k].Record() == recs[k]
    modifies tracks
    ensures res == Rendered(WithElapsed(recs))
    ensures res.Ok? ==> elapsed == SumLengths(recs)
    ensures visited <= |tracks| && (res.Ok? ==> visited == |tracks|) && (res.Err? ==> 1 <= visited)
    ensures forall k :: 0 <= k < visited ==> tracks[k].Record() == WithElapsed(recs)[k]
    ensures forall k :: visited <= k < |tracks| ==> tracks[k].Record() == recs[k]
  {
    ghost var annotated := WithElapsed(recs);
    var out := "";
    elapsed := 0;
    var i := 0;
    while i < |tracks|
      invariant i <= |tracks|
      invariant elapsed == SumLengths(recs[..i])
      invariant Rendered(annotated[..i]) == Ok(out)
      invariant forall k :: 0 <= k < i ==> tracks[k].Record() == annotated[k]
      invariant forall k :: i <= k < |tracks| ==> tracks[k].Record() == recs[k]
    {
      label Head:
      var track := tracks[i];
      track.elapsed := elapsed;
      forall k | 0 <= k < |tracks| && k != i ensures tracks[k].Record() == old@Head(tracks[k].Record()) {
        assert tracks[k] != track;
      }
      assert track.Record() == annotated[i];
      var block := track.Render();
      if block.Err? {
        assert Rendered(annotated) == Err(block.error) by {
          RenderedStep(annotated, i);
          RenderedPrefix(annotated, i + 1);
        }
        forall k | 0 <= k <= i ensures tracks[k].Record() == annotated[k] {
          if k < i {
            assert tracks[k].Record() == old@Head(tracks[k].Record());
          }
        }
        return Err(block.error), elapsed, i + 1;
      }
      assert Rendered(annotated[..i + 1]) == Ok(out + block.value) by {
        RenderedStep(annotated, i);
      }
      out := out + block.value;
      assert SumLengths(recs[..i + 1]) == elapsed + track.Length() by {
        SumLengthsStep(recs, i);
      }
      elapsed := elapsed + track.Length();
      i := i + 1;
    }
    res, visited := Ok(out), i;
    assert annotated[..i] == annotated;
    assert recs[..i] == recs;
  }

  /** main: the preamble is built while recorded_date is None, the three
      loops run, and the output is printed once at the end, so a run that
      raises writes nothing. */
  method Run(rows: seq<seq<string>>) returns (stdout: string)
    ensures stdout == StandardOutput(rows)
    ensures Output(rows).Ok? ==> stdout == Output(rows).value + "\n"
    ensures Output(rows).Err? ==> stdout == ""
  {
    var recordedDate: Option<string> := None;
    var out := PreambleFor(recordedDate);
    var read;
    read, recordedDate := ReadTracks(rows);
    if read.Err? {
      return "";
    }
    var tracks := read.value;
    assert forall i :: 0 <= i < |tracks| ==> fresh(tracks[i]);
    CloseGaps(tracks);
    var body, elapsed, visited := RenderTracks(tracks, Records(tracks));
    if body.Err? {
      return "";
    }
    out := out + body.value;
    stdout := out + "\n";
  }
}
