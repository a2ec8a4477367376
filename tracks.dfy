/** The Track dataclass (serato2cue.py:12-45): one logged performance, with
    its derived length and its CUE text block (DEBUG off). */
module Tracks {
  import opened Errors
  import opened Numerals
  import opened CueTime

  /** The value of a Track: times are seconds of the session day, elapsed a
      duration in seconds. */
  datatype TrackRecord = TrackRecord(
    index: nat,
    title: string,
    author: string,
    startTime: int,
    endTime: int,
    elapsed: int)
  {
    /** Track.length: end_time - start_time, negative when the end is logged
        before the start. */
    function Length(): int
    {
      endTime - startTime
    }

    /** The fixed lines of the block, up to the INDEX 00 position.  Title and
        author go in verbatim, without escaping quotes. */
    function Heading(): string
    {
      "\n  TRACK " + Pad2(index) + " AUDIO\n    TITLE \"" + title + "\"\n    PERFORMER \"" + author + "\"\n    INDEX 00 "
    }

    /** Track.__str__: the heading followed by the formatted elapsed time; it
        raises when formatted_time does. */
    function Render(): (r: Result<string>)
      ensures r.Ok? <==> 0 <= elapsed < 86400
      ensures r.Err? ==> r.error == ValueError
    {
      match FormattedTime(elapsed)
      case Err(e) => Err(e)
      case Ok(f) => Ok(Heading() + f)
    }
  }

  /** A block renders exactly when the elapsed time is below one day; it
      begins with the track's heading lines and its INDEX 00 field reads back,
      in CUE frames, as the elapsed time.  The track number reads back as the
      index. */
  lemma RenderRoundTrip(t: TrackRecord)
    ensures t.Render().Ok? <==> 0 <= t.elapsed < 86400
    ensures Value(Pad2(t.index)) == t.index
    ensures t.Render().Ok? ==>
      var s, h := t.Render().value, t.Heading();
      |h| <= |s| && s[..|h|] == h && CueTimeFrames(s[|h|..]) == Some(t.elapsed * FramesPerSecond)
  {
    Pad2Value(t.index);
    if t.Render().Ok? {
      FormattedTimeRoundTrip(t.elapsed);
      var s, h := t.Render().value, t.Heading();
      assert s == h + FormattedTime(t.elapsed).value;
      assert s[|h|..] == FormattedTime(t.elapsed).value;
    }
  }

  /** A Track object: the dataclass whose end_time and elapsed the
      converter overwrites in place. */
  class Track {
    var index: nat
    var title: string
    var author: string
    var startTime: int
    var endTime: int
    var elapsed: int

    constructor (index: nat, title: string, author: string, startTime: int, endTime: int, elapsed: int)
      ensures Record() == TrackRecord(index, title, author, startTime, endTime, elapsed)
    {
      this.index := index;
      this.title := title;
      this.author := author;
      this.startTime := startTime;
      this.endTime := endTime;
      this.elapsed := elapsed;
    }

    /** The object's current field values. */
    function Record(): TrackRecord
      reads this
    {
      TrackRecord(index, title, author, startTime, endTime, elapsed)
    }

    /** The length property of the object. */
    function Length(): int
      reads this
    {
      Record().Length()
    }

    /** str(track). */
    function Render(): Result<string>
      reads this
    {
      Record().Render()
    }
  }
}
