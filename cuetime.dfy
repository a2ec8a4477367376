/** Track.formatted_time (serato2cue.py:25-30): a duration printed in the CUE
    sheet's MM:SS:FF form, hours folded into the minutes and the frame field
    always 00. */
module CueTime {
  import opened Errors
  import opened Numerals

  /** CUE sheets count 75 frames per second. */
  const FramesPerSecond := 75

  /** formatted_time on a whole-second duration d: total minutes and
      seconds, each at least two digits, then frame 00.  A negative duration
      or one of a day or more fails, because str(d) then carries a "day" part
      that int() rejects.  FormattedTimeFoldsHours shows this is the
      hours * 60 + minutes that Python computes from the fields of str(d). */
  function FormattedTime(d: int): (r: Result<string>)
    ensures r.Ok? <==> 0 <= d < 86400
    ensures r.Err? ==> r.error == ValueError
    ensures r.Ok? ==> |r.value| >= 8 && r.value[|r.value| - 3..] == ":00"
  {
    if d < 0 || d >= 86400 then Err(ValueError)
    else Ok(Pad2(d / 60) + ":" + Pad2(d % 60) + ":00")
  }

  /** The position, in frames, that a CUE time MM:SS:FF denotes; None when the
      text is not of that form (minutes of two or more digits, seconds below
      60 and frames below 75 of two digits each). */
  function CueTimeFrames(s: string): Option<int>
  {
    if |s| < 8 then None
    else
      var mm, ss, ff := s[..|s| - 6], s[|s| - 5..|s| - 3], s[|s| - 2..];
      if AllDigits(mm) && AllDigits(ss) && AllDigits(ff) && s[|s| - 6] == ':' && s[|s| - 3] == ':'
         && Value(ss) < 60 && Value(ff) < FramesPerSecond
      then Some((Value(mm) * 60 + Value(ss)) * FramesPerSecond + Value(ff))
      else None
  }

  /** For a duration below one day, str(d) has the fields hours, minutes and
      seconds; formatted_time prints the hours folded into the minutes and
      the seconds, both padded to two digits, then a zero frame field.  That
      is what FormattedTime gives. */
  lemma FormattedTimeFoldsHours(d: int)
    requires 0 <= d < 86400
    ensures var hours, minutes, seconds := d / 3600, d % 3600 / 60, d % 60;
      FormattedTime(d) == Ok(Pad2(hours * 60 + minutes) + ":" + Pad2(seconds) + ":00")
  {
    assert (d / 3600) * 60 + d % 3600 / 60 == d / 60;
  }

  /** The fields of a time MM:SS:FF written out are found back where
      CueTimeFrames looks for them. */
  lemma CueTimeFields(mm: string, ss: string, ff: string)
    requires |mm| >= 2 && |ss| == 2 && |ff| == 2
    ensures var s := mm + ":" + ss + ":" + ff;
      |s| >= 8 && s[..|s| - 6] == mm && s[|s| - 5..|s| - 3] == ss && s[|s| - 2..] == ff
      && s[|s| - 6] == ':' && s[|s| - 3] == ':'
  {
    var s := mm + ":" + ss + ":" + ff;
    assert s[..|mm|] == mm;
    assert s[|mm| + 1..|mm| + 3] == ss;
    assert s[|mm| + 4..] == ff;
  }

  /** Minutes and seconds printed as formatted_time prints them denote
      that many minutes and seconds. */
  lemma CueTimeFramesOfClock(minutes: nat, seconds: nat)
    requires seconds < 60
    ensures CueTimeFrames(Pad2(minutes) + ":" + Pad2(seconds) + ":" + "00")
         == Some((minutes * 60 + seconds) * FramesPerSecond)
  {
    var mm, ss := Pad2(minutes), Pad2(seconds);
    Pad2Value(minutes);
    Pad2Value(seconds);
    CueTimeFields(mm, ss, "00");
    assert Value("00") == 0 by {
      assert "00"[..1] == "0";
    }
  }

  /** What formatted_time prints denotes, in CUE terms, exactly the duration it
      was given. */
  lemma FormattedTimeRoundTrip(d: int)
    requires FormattedTime(d).Ok?
    ensures CueTimeFrames(FormattedTime(d).value) == Some(d * FramesPerSecond)
  {
    var minutes, seconds := d / 60, d % 60;
    assert minutes * 60 + seconds == d;
    assert FormattedTime(d).value == Pad2(minutes) + ":" + Pad2(seconds) + ":" + "00";
    CueTimeFramesOfClock(minutes, seconds);
  }

  /** The minutes field is two digits wide up to 99 minutes and wider from an
      hour and forty minutes on. */
  lemma FormattedTimeWidth(d: int)
    requires FormattedTime(d).Ok?
    ensures d < 6000 <==> |FormattedTime(d).value| == 8
  {
    Pad2Value(d / 60);
    Pad2Value(d % 60);
  }

  /** 1:02:03 prints as 62:03:00. */
  lemma FormattedTimeExample()
    ensures FormattedTime(3723) == Ok("62:03:00")
  {
    assert 3723 / 3600 == 1 && 3723 % 3600 / 60 == 2 && 3723 % 60 == 3;
    assert Decimal(6) == "6" && Decimal(2) == "2";
    assert Decimal(62) == Decimal(6) + "2";
    assert Pad2(62) == "62";
    assert Pad2(3) == "03";
    FormattedTimeFoldsHours(3723);
    assert "62" + ":" + "03" + ":00" == "62:03:00";
  }
}
