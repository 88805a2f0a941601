/** The serial reader of the earlier dashboard: it accepts only lines of
    exactly six fields, stores the raw states as sent, and logs a "Change
    detected" event on every change of a row's state, in either direction.
    It keeps no alerts. */
module IngestOld {
  import opened Wrappers
  import opened Strings
  import opened Feed
  import Ingest

  const ChangeDetected: string := "Change detected"

  /** What `latest_data` holds after a line is accepted: the raw states, as sent. */
  datatype Reading = Reading(dist1: real, state1: int, dist2: real, state2: int)

  /** The outcome of one line: accepted, skipped (blank or header), the wrong
      number of fields, or a field that does not parse (Python raises, the
      loop's handler catches it). */
  datatype Decoded = Accepted(reading: Reading) | Skipped | WrongFieldCount | Unparsable

  function Decode(nums: Numerals, line: string): (d: Decoded)
    ensures d.Accepted? ==> !BlankOrHeader(line) && |Split(line)| == 6
  {
    if BlankOrHeader(line) then Skipped
    else
      var f := Split(line);
      if |f| != 6 then WrongFieldCount
      else
        var d1, s1, d2, s2 := nums.parseFloat(f[0]), nums.parseInt(f[1]), nums.parseFloat(f[2]), nums.parseInt(f[3]);
        if d1.None? || s1.None? || d2.None? || s2.None? then Unparsable
        else Accepted(Reading(d1.value, s1.value, d2.value, s2.value))
  }

  /** Only lines of exactly six fields whose first four parse are accepted;
      the states are kept exactly as `int` parsed them, and the last two
      fields are never read. */
  lemma DecodeSpec(nums: Numerals, line: string)
    ensures var d := Decode(nums, line); var f := Split(line);
      && (d.Skipped? <==> BlankOrHeader(line))
      && (d.WrongFieldCount? <==> !BlankOrHeader(line) && |f| != 6)
      && (d.Accepted? ==>
            && |f| == 6
            && nums.parseFloat(f[0]) == Some(d.reading.dist1) && nums.parseInt(f[1]) == Some(d.reading.state1)
            && nums.parseFloat(f[2]) == Some(d.reading.dist2) && nums.parseInt(f[3]) == Some(d.reading.state2))
      && (d.Unparsable? <==>
            && !BlankOrHeader(line) && |f| == 6
            && (nums.parseFloat(f[0]).None? || nums.parseInt(f[1]).None? ||
                nums.parseFloat(f[2]).None? || nums.parseInt(f[3]).None?))
  {
  }

  /** The reader's state: `latest_data`, `prev_state1`/`prev_state2` and `event_log`. */
  datatype Tracker = Tracker(latest: Option<Reading>, prev1: Option<int>, prev2: Option<int>, log: seq<Event>)

  function PrevOf(t: Tracker, row: int): Option<int>
  {
    if row == 1 then t.prev1 else t.prev2
  }

  function StateOf(r: Reading, row: int): int
  {
    if row == 1 then r.state1 else r.state2
  }

  function DistOf(r: Reading, row: int): real
  {
    if row == 1 then r.dist1 else r.dist2
  }

  /** The earlier reader's event condition: a previous state is known and differs. */
  predicate Changed(prev: Option<int>, state: int): (changed: bool)
    ensures prev.None? ==> !changed
    ensures prev == Some(state) ==> !changed
    ensures prev.Some? && prev.value < state ==> changed
    ensures prev.Some? && prev.value > state ==> changed
  {
    prev.Some? && prev.value != state
  }

  /** The effect of one accepted reading. */
  function Observe(t: Tracker, r: Reading, time: string): (u: Tracker)
    ensures u.latest == Some(r) && u.prev1 == Some(r.state1) && u.prev2 == Some(r.state2)
    ensures t.log <= u.log
  {
    var log1 := if Changed(t.prev1, r.state1) then t.log + [Event(time, 1, ChangeDetected, r.dist1)] else t.log;
    var log2 := if Changed(t.prev2, r.state2) then log1 + [Event(time, 2, ChangeDetected, r.dist2)] else log1;
    Tracker(Some(r), Some(r.state1), Some(r.state2), log2)
  }

  /** What one accepted reading appends to the log, and in which order. */
  lemma ObserveSpec(t: Tracker, r: Reading, time: string)
    ensures var u := Observe(t, r, time);
      && |u.log| == |t.log| + (if Changed(t.prev1, r.state1) then 1 else 0) + (if Changed(t.prev2, r.state2) then 1 else 0)
      && (forall i :: |t.log| <= i < |u.log| ==>
            && (u.log[i].row == 1 || u.log[i].row == 2)
            && Changed(PrevOf(t, u.log[i].row), StateOf(r, u.log[i].row))
            && u.log[i] == Event(time, u.log[i].row, ChangeDetected, DistOf(r, u.log[i].row)))
      && (forall i, j :: |t.log| <= i < j < |u.log| ==> u.log[i].row < u.log[j].row)
  {
  }

  /** One pass of the reader's loop: a line that is not accepted changes nothing. */
  function Step(nums: Numerals, t: Tracker, rx: Received): (u: Tracker)
    ensures t.log <= u.log
    ensures !Decode(nums, rx.line).Accepted? ==> u == t
  {
    match Decode(nums, rx.line)
    case Accepted(r) => Observe(t, r, rx.time)
    case _ => t
  }

  /** The reader's loop over a finite feed of lines. The log only grows. */
  function Run(nums: Numerals, t: Tracker, feed: seq<Received>): (u: Tracker)
    ensures t.log <= u.log
    decreases |feed|
  {
    if feed == [] then t else Step(nums, Run(nums, t, feed[..|feed| - 1]), feed[|feed| - 1])
  }

  /** Running one more line is one more step. */
  lemma RunSnoc(nums: Numerals, t: Tracker, feed: seq<Received>, i: nat)
    requires i < |feed|
    ensures Run(nums, t, feed[..i + 1]) == Step(nums, Run(nums, t, feed[..i]), feed[i])
  {
    assert feed[..i + 1][..i] == feed[..i];
  }

  /** The raw state of `row` in one line, if the line is accepted. */
  function StateIn(nums: Numerals, rx: Received, row: int): (s: seq<int>)
    ensures |s| <= 1
  {
    match Decode(nums, rx.line)
    case Accepted(r) => [StateOf(r, row)]
    case _ => []
  }

  /** The raw states of `row` in the accepted lines of `feed`, in order. */
  function States(nums: Numerals, feed: seq<Received>, row: int): seq<int>
    decreases |feed|
  {
    if feed == [] then [] else States(nums, feed[..|feed| - 1], row) + StateIn(nums, feed[|feed| - 1], row)
  }

  /** The number of steps between two different states. */
  function ChangeCount(s: seq<int>): nat
    decreases |s|
  {
    if |s| < 2 then 0
    else ChangeCount(s[..|s| - 1]) + (if s[|s| - 2] != s[|s| - 1] then 1 else 0)
  }

  /** One accepted reading appends one event for `row` if its state changed, none otherwise. */
  lemma ObserveCount(t: Tracker, r: Reading, time: string, row: int)
    ensures CountRow(Observe(t, r, time).log, row) ==
      CountRow(t.log, row) + (if (row == 1 || row == 2) && Changed(PrevOf(t, row), StateOf(r, row)) then 1 else 0)
  {
    var e1, e2 := Event(time, 1, ChangeDetected, r.dist1), Event(time, 2, ChangeDetected, r.dist2);
    var a := if Changed(t.prev1, r.state1) then [e1] else [];
    var b := if Changed(t.prev2, r.state2) then [e2] else [];
    assert Observe(t, r, time).log == t.log + (a + b);
    CountRowAppend(t.log, a + b, row);
    CountRowAppend(a, b, row);
    assert [e1][..0] == [] && [e2][..0] == [];
  }

  lemma StepPrev(nums: Numerals, u: Tracker, rx: Received, row: int)
    requires row == 1 || row == 2
    ensures PrevOf(Step(nums, u, rx), row) == if StateIn(nums, rx, row) == [] then PrevOf(u, row) else Some(StateIn(nums, rx, row)[0])
  {
  }

  lemma StepCount(nums: Numerals, u: Tracker, rx: Received, row: int)
    requires row == 1 || row == 2
    ensures CountRow(Step(nums, u, rx).log, row) == CountRow(u.log, row) +
      (if StateIn(nums, rx, row) != [] && Changed(PrevOf(u, row), StateIn(nums, rx, row)[0]) then 1 else 0)
  {
    match Decode(nums, rx.line)
    case Accepted(r) => ObserveCount(u, r, rx.time, row);
    case _ =>
  }

  /** The remembered state of `row` after a feed is the last raw state seen, counting the one remembered before. */
  lemma {:induction false} RunPrev(nums: Numerals, t: Tracker, feed: seq<Received>, row: int)
    requires row == 1 || row == 2
    ensures PrevOf(Run(nums, t, feed), row) == Last(History(PrevOf(t, row)) + States(nums, feed, row))
    decreases |feed|
  {
    var h := History(PrevOf(t, row));
    if feed == [] {
      assert h + [] == h;
    } else {
      RunPrev(nums, t, feed[..|feed| - 1], row);
      StepPrev(nums, Run(nums, t, feed[..|feed| - 1]), feed[|feed| - 1], row);
      StatesSnoc(nums, h, feed, row);
    }
  }

  lemma StatesSnoc(nums: Numerals, h: seq<int>, feed: seq<Received>, row: int)
    requires feed != []
    ensures h + States(nums, feed, row) == h + States(nums, feed[..|feed| - 1], row) + StateIn(nums, feed[|feed| - 1], row)
  {
  }

  /** Extending a history by at most one state adds one change exactly when it differs from the last state. */
  lemma ChangeCountExtend(s: seq<int>, added: seq<int>)
    requires |added| <= 1
    ensures ChangeCount(s + added) == ChangeCount(s) + (if added != [] && Changed(Last(s), added[0]) then 1 else 0)
  {
    if added == [] {
      assert s + added == s;
    } else {
      assert (s + added)[..|s|] == s;
    }
  }

  /** Over any feed, the earlier reader appends exactly one event for `row`
      per change in the row's raw state history, in either direction, where
      the history starts with the state remembered before the feed. */
  lemma {:induction false} RunCountsChanges(nums: Numerals, t: Tracker, feed: seq<Received>, row: int)
    requires row == 1 || row == 2
    ensures CountRow(Run(nums, t, feed).log, row) ==
      CountRow(t.log, row) + ChangeCount(History(PrevOf(t, row)) + States(nums, feed, row))
    decreases |feed|
  {
    var h := History(PrevOf(t, row));
    if feed == [] {
      assert h + [] == h;
    } else {
      var feed' := feed[..|feed| - 1];
      var rx := feed[|feed| - 1];
      var u' := Run(nums, t, feed');
      RunCountsChanges(nums, t, feed', row);
      RunPrev(nums, t, feed', row);
      StepCount(nums, u', rx, row);
      ChangeCountExtend(h + States(nums, feed', row), StateIn(nums, rx, row));
      StatesSnoc(nums, h, feed, row);
    }
  }

  /** Lines that are not accepted can be removed from any feed without changing the outcome. */
  lemma {:induction false} RunSkipsDropped(nums: Numerals, t: Tracker, before: seq<Received>, dropped: Received, after: seq<Received>)
    requires !Decode(nums, dropped.line).Accepted?
    ensures Run(nums, t, before + [dropped] + after) == Run(nums, t, before + after)
    decreases |after|
  {
    if after == [] {
      assert before + [dropped] + after == before + [dropped];
      assert (before + [dropped])[..|before|] == before;
      assert before + after == before;
    } else {
      var after' := after[..|after| - 1];
      RunSkipsDropped(nums, t, before, dropped, after');
      assert (before + [dropped] + after)[..|before| + |after|] == before + [dropped] + after';
      assert (before + after)[..|before| + |after| - 1] == before + after';
    }
  }

  /** On the same state history, the current reader never logs more events
      than the earlier one: every 0-to-1 step is a change. */
  lemma {:induction false} RisesAreChanges(s: seq<int>)
    ensures Ingest.RiseCount(s) <= ChangeCount(s)
    decreases |s|
  {
    if |s| >= 2 {
      RisesAreChanges(s[..|s| - 1]);
    }
  }

  /** A 1-to-0 step is a change for the earlier reader and no event for the current one. */
  lemma FallIsOnlyAChange()
    ensures ChangeCount([1, 0]) == 1 && Ingest.RiseCount([1, 0]) == 0
  {
    assert [1, 0][..1] == [1];
  }
}
