/** The earlier monitor's shared state: the serial reader and the `/log`
    handler share one `OldMonitor`. */
module WebsiteOld {
  import opened Wrappers
  import opened Feed
  import opened IngestOld
  import opened Views

  class OldMonitor {
    var latest: Option<Reading>
    var prev1: Option<int>
    var prev2: Option<int>
    var events: seq<Event>

    /** The state as the reader's specification sees it. */
    ghost function Monitor(): Tracker
      reads this
    {
      Tracker(latest, prev1, prev2, events)
    }

    /** The state at start-up: no reading yet and no events. */
    constructor ()
      ensures latest == None && prev1 == None && prev2 == None && events == []
    {
      latest, prev1, prev2, events := None, None, None, [];
    }

    /** One pass of the reader's loop: a line of exactly six fields is stored,
        each row whose state differs from the last one is logged, and the new
        states are remembered. */
    method ReadLine(nums: Numerals, rx: Received)
      modifies this
      ensures Monitor() == Step(nums, old(Monitor()), rx)
    {
      match Decode(nums, rx.line) {
        case Accepted(r) =>
          latest := Some(r);
          if prev1.Some? && prev1.value != r.state1 {
            events := events + [Event(rx.time, 1, ChangeDetected, r.dist1)];
          }
          if prev2.Some? && prev2.value != r.state2 {
            events := events + [Event(rx.time, 2, ChangeDetected, r.dist2)];
          }
          prev1, prev2 := Some(r.state1), Some(r.state2);
        case _ =>
      }
    }

    /** The reader's loop over a batch of lines. */
    method ReadSerial(nums: Numerals, feed: seq<Received>)
      modifies this
      ensures Monitor() == Run(nums, old(Monitor()), feed)
    {
      ghost var start := Monitor();
      var i := 0;
      while i < |feed|
        invariant 0 <= i <= |feed|
        invariant Monitor() == Run(nums, start, feed[..i])
      {
        RunSnoc(nums, start, feed, i);
        ReadLine(nums, feed[i]);
        i := i + 1;
      }
      assert feed[..i] == feed;
    }

    /** `/log`: the last 50 events, oldest first. */
    method GetLog() returns (r: seq<Event>)
      ensures |r| == Min(50, |events|)
      ensures events == events[..|events| - |r|] + r
    {
      r := Tail(events, 50);
    }
  }
}
