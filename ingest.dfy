/** The serial reader of the current dashboard: which lines it accepts, how it
    decodes them, and the edge-triggered, latched "needs checking" alerts it
    raises. One call of `Step` is one pass of the reader's loop over a line. */
module Ingest {
  import opened Wrappers
  import opened Strings
  import opened Feed

  const DefaultLower: real := 30.0
  const DefaultUpper: real := 40.0
  const NeedsChecking: string := "Needs checking"

  /** What `latest_data` holds after a line is accepted. States are 0 or 1. */
  datatype Reading = Reading(dist1: real, state1: int, dist2: real, state2: int, lower: real, upper: real)

  /** The outcome of decoding one line: accepted, or which of the three
      `continue` branches dropped it. */
  datatype Decoded = Accepted(reading: Reading) | Skipped | Incomplete | Unparsable

  /** A field that is present parses; an absent one takes its default. */
  function FieldOr(nums: Numerals, fields: seq<string>, i: nat, default: real): Option<real>
  {
    if |fields| > i then nums.parseFloat(fields[i]) else Some(default)
  }

  /** `read_serial`'s parse of one line (lines 80-98). Decoded states are 0 or 1. */
  function Decode(nums: Numerals, line: string): (d: Decoded)
    ensures d.Accepted? ==> 0 <= d.reading.state1 <= 1 && 0 <= d.reading.state2 <= 1
  {
    if BlankOrHeader(line) then Skipped
    else
      var f := Split(line);
      if |f| < 4 then Incomplete
      else
        var d1, s1, d2, s2 := nums.parseFloat(f[0]), nums.parseInt(f[1]), nums.parseFloat(f[2]), nums.parseInt(f[3]);
        var lower, upper := FieldOr(nums, f, 4, DefaultLower), FieldOr(nums, f, 5, DefaultUpper);
        if d1.None? || s1.None? || d2.None? || s2.None? || lower.None? || upper.None? then Unparsable
        else
          Accepted(Reading(d1.value, if s1.value > 0 then 1 else 0, d2.value, if s2.value > 0 then 1 else 0,
                           lower.value, upper.value))
  }

  /** Which lines are dropped and which are accepted, and how an accepted
      line is decoded: a raw state above zero becomes 1, anything else 0, a
      present threshold is its parsed field and an absent one its default. */
  lemma DecodeSpec(nums: Numerals, line: string)
    ensures var d := Decode(nums, line); var f := Split(line);
      && (d.Skipped? <==> BlankOrHeader(line))
      && (d.Incomplete? <==> !BlankOrHeader(line) && |f| < 4)
      && (d.Accepted? ==> |f| >= 4)
      && (d.Accepted? ==>
            && nums.parseInt(f[1]).Some? && (d.reading.state1 == 1 <==> nums.parseInt(f[1]).value > 0)
            && nums.parseInt(f[3]).Some? && (d.reading.state2 == 1 <==> nums.parseInt(f[3]).value > 0)
            && nums.parseFloat(f[0]) == Some(d.reading.dist1)
            && nums.parseFloat(f[2]) == Some(d.reading.dist2))
      && (d.Unparsable? <==>
            && !BlankOrHeader(line) && |f| >= 4
            && (|| nums.parseFloat(f[0]).None? || nums.parseInt(f[1]).None?
                || nums.parseFloat(f[2]).None? || nums.parseInt(f[3]).None?
                || (|f| > 4 && nums.parseFloat(f[4]).None?)
                || (|f| > 5 && nums.parseFloat(f[5]).None?)))
      && (d.Accepted? && |f| <= 4 ==> d.reading.lower == DefaultLower)
      && (d.Accepted? && |f| <= 5 ==> d.reading.upper == DefaultUpper)
      && (d.Accepted? && |f| > 4 ==> nums.parseFloat(f[4]) == Some(d.reading.lower))
      && (d.Accepted? && |f| > 5 ==> nums.parseFloat(f[5]) == Some(d.reading.upper))
  {
  }

  /** The reader's state: `latest_data`, its local `prev_state1`/`prev_state2`,
      `event_log` and `alerts`. */
  datatype Tracker = Tracker(latest: Option<Reading>, prev1: Option<int>, prev2: Option<int>,
                             log: seq<Event>, alerts: map<int, bool>)

  function PrevOf(t: Tracker, row: int): Option<int>
  {
    if row == 1 then t.prev1 else t.prev2
  }

  function StateOf(r: Reading, row: int): int
  {
    if row == 1 then r.state1 else r.state2
  }

  function DistOf(r: Reading, row: int): real
  {
    if row == 1 then r.dist1 else r.dist2
  }

  /** The reader's event condition: a previous state is known, it differs, and the new state is 1. */
  predicate Fires(prev: Option<int>, state: int): (fires: bool)
    ensures prev.None? ==> !fires
    ensures fires ==> state == 1
    ensures prev == Some(1) ==> !fires
  {
    prev.Some? && prev.value != state && state == 1
  }

  /** `alerts[row]` is present and true. */
  predicate Flag(alerts: map<int, bool>, row: int)
  {
    row in alerts && alerts[row]
  }

  /** The effect of one accepted reading. */
  function Observe(t: Tracker, r: Reading, time: string): (u: Tracker)
    ensures u.latest == Some(r) && u.prev1 == Some(r.state1) && u.prev2 == Some(r.state2)
    ensures t.log <= u.log
    ensures t.alerts.Keys <= u.alerts.Keys
  {
    var (log1, alerts1) :=
      if Fires(t.prev1, r.state1) then (t.log + [Event(time, 1, NeedsChecking, r.dist1)], t.alerts[1 := true])
      else (t.log, t.alerts);
    var (log2, alerts2) :=
      if Fires(t.prev2, r.state2) then (log1 + [Event(time, 2, NeedsChecking, r.dist2)], alerts1[2 := true])
      else (log1, alerts1);
    Tracker(Some(r), Some(r.state1), Some(r.state2), log2, alerts2)
  }

  /** What one accepted reading appends to the log, in which order, and which alerts it raises. */
  lemma ObserveSpec(t: Tracker, r: Reading, time: string)
    ensures var u := Observe(t, r, time);
      && |u.log| == |t.log| + (if Fires(t.prev1, r.state1) then 1 else 0) + (if Fires(t.prev2, r.state2) then 1 else 0)
      && (forall i :: |t.log| <= i < |u.log| ==>
            && (u.log[i].row == 1 || u.log[i].row == 2)
            && Fires(PrevOf(t, u.log[i].row), StateOf(r, u.log[i].row))
            && u.log[i] == Event(time, u.log[i].row, NeedsChecking, DistOf(r, u.log[i].row)))
      && (forall i, j :: |t.log| <= i < j < |u.log| ==> u.log[i].row < u.log[j].row)
      && (forall k :: Flag(u.alerts, k) <==>
            Flag(t.alerts, k) || ((k == 1 || k == 2) && Fires(PrevOf(t, k), StateOf(r, k))))
  {
  }

  /** One pass of the reader's loop: a dropped line changes nothing. */
  function Step(nums: Numerals, t: Tracker, rx: Received): (u: Tracker)
    ensures t.log <= u.log
    ensures t.alerts.Keys <= u.alerts.Keys
    ensures !Decode(nums, rx.line).Accepted? ==> u == t
  {
    match Decode(nums, rx.line)
    case Accepted(r) => Observe(t, r, rx.time)
    case _ => t
  }

  /** The reader's loop over a finite feed of lines. The log only grows and no alert key disappears. */
  function Run(nums: Numerals, t: Tracker, feed: seq<Received>): (u: Tracker)
    ensures t.log <= u.log
    ensures t.alerts.Keys <= u.alerts.Keys
    decreases |feed|
  {
    if feed == [] then t else Step(nums, Run(nums, t, feed[..|feed| - 1]), feed[|feed| - 1])
  }

  /** Running one more line is one more step. */
  lemma RunSnoc(nums: Numerals, t: Tracker, feed: seq<Received>, i: nat)
    requires i < |feed|
    ensures Run(nums, t, feed[..i + 1]) == Step(nums, Run(nums, t, feed[..i]), feed[i])
  {
    assert feed[..i + 1][..i] == feed[..i];
  }

  /** The decoded state of `row` in one line, if the line is accepted. */
  function StateIn(nums: Numerals, rx: Received, row: int): (s: seq<int>)
    ensures |s| <= 1
    ensures forall i :: 0 <= i < |s| ==> 0 <= s[i] <= 1
  {
    match Decode(nums, rx.line)
    case Accepted(r) => [StateOf(r, row)]
    case _ => []
  }

  /** The decoded states of `row` in the accepted lines of `feed`, in order. */
  function States(nums: Numerals, feed: seq<Received>, row: int): (s: seq<int>)
    ensures forall i :: 0 <= i < |s| ==> 0 <= s[i] <= 1
    decreases |feed|
  {
    if feed == [] then [] else States(nums, feed[..|feed| - 1], row) + StateIn(nums, feed[|feed| - 1], row)
  }

  /** The number of 0-to-1 steps in a sequence of states. */
  function RiseCount(s: seq<int>): nat
    decreases |s|
  {
    if |s| < 2 then 0
    else RiseCount(s[..|s| - 1]) + (if s[|s| - 2] == 0 && s[|s| - 1] == 1 then 1 else 0)
  }

  /** On states 0 and 1, the reader's condition is exactly a 0-to-1 step. */
  lemma FiresIsRise(prev: Option<int>, state: int)
    requires prev.Some? ==> 0 <= prev.value <= 1
    requires 0 <= state <= 1
    ensures Fires(prev, state) <==> prev == Some(0) && state == 1
  {
  }

  /** One accepted reading appends one event for `row` if the reader's condition holds for it, none otherwise. */
  lemma ObserveCount(t: Tracker, r: Reading, time: string, row: int)
    ensures CountRow(Observe(t, r, time).log, row) ==
      CountRow(t.log, row) + (if (row == 1 || row == 2) && Fires(PrevOf(t, row), StateOf(r, row)) then 1 else 0)
  {
    var e1, e2 := Event(time, 1, NeedsChecking, r.dist1), Event(time, 2, NeedsChecking, r.dist2);
    var a := if Fires(t.prev1, r.state1) then [e1] else [];
    var b := if Fires(t.prev2, r.state2) then [e2] else [];
    assert Observe(t, r, time).log == t.log + (a + b);
    CountRowAppend(t.log, a + b, row);
    CountRowAppend(a, b, row);
    assert [e1][..0] == [] && [e2][..0] == [];
  }

  /** One line changes the remembered state of `row` to its decoded state, if it is accepted. */
  lemma StepPrev(nums: Numerals, u: Tracker, rx: Received, row: int)
    requires row == 1 || row == 2
    ensures PrevOf(Step(nums, u, rx), row) == if StateIn(nums, rx, row) == [] then PrevOf(u, row) else Some(StateIn(nums, rx, row)[0])
  {
  }

  /** One line appends an event for `row` exactly when it is accepted and the reader's condition holds. */
  lemma StepCount(nums: Numerals, u: Tracker, rx: Received, row: int)
    requires row == 1 || row == 2
    ensures CountRow(Step(nums, u, rx).log, row) == CountRow(u.log, row) +
      (if StateIn(nums, rx, row) != [] && Fires(PrevOf(u, row), StateIn(nums, rx, row)[0]) then 1 else 0)
  {
    match Decode(nums, rx.line)
    case Accepted(r) => ObserveCount(u, r, rx.time, row);
    case _ =>
  }

  /** The remembered state of `row` after a feed is the last state seen, counting the one remembered before. */
  lemma {:induction false} RunPrev(nums: Numerals, t: Tracker, feed: seq<Received>, row: int)
    requires row == 1 || row == 2
    ensures PrevOf(Run(nums, t, feed), row) == Last(History(PrevOf(t, row)) + States(nums, feed, row))
    decreases |feed|
  {
    var h := History(PrevOf(t, row));
    if feed == [] {
      assert h + [] == h;
    } else {
      var feed' := feed[..|feed| - 1];
      var rx := feed[|feed| - 1];
      RunPrev(nums, t, feed', row);
      StepPrev(nums, Run(nums, t, feed'), rx, row);
      assert h + States(nums, feed, row) == (h + States(nums, feed', row)) + StateIn(nums, rx, row);
    }
  }

  /** Extending a state history by at most one state adds one 0-to-1 step
      exactly when the reader's condition holds against the last state. */
  lemma RiseCountExtend(s: seq<int>, added: seq<int>)
    requires forall i :: 0 <= i < |s| ==> 0 <= s[i] <= 1
    requires |added| <= 1 && (added != [] ==> 0 <= added[0] <= 1)
    ensures RiseCount(s + added) == RiseCount(s) + (if added != [] && Fires(Last(s), added[0]) then 1 else 0)
  {
    if added == [] {
      assert s + added == s;
    } else {
      assert (s + added)[..|s|] == s;
    }
  }

  /** The history after a non-empty feed is the history before its last line, plus that line's state. */
  lemma StatesSnoc(nums: Numerals, h: seq<int>, feed: seq<Received>, row: int)
    requires feed != []
    ensures h + States(nums, feed, row) == h + States(nums, feed[..|feed| - 1], row) + StateIn(nums, feed[|feed| - 1], row)
  {
  }

  /** The remembered state and the history seen so far stay in {0, 1}. */
  lemma HistoryInRange(nums: Numerals, t: Tracker, feed: seq<Received>, row: int)
    requires PrevOf(t, row).Some? ==> 0 <= PrevOf(t, row).value <= 1
    ensures var s := History(PrevOf(t, row)) + States(nums, feed, row);
      forall i :: 0 <= i < |s| ==> 0 <= s[i] <= 1
  {
  }

  /** Over any feed, the reader appends exactly one event for `row` per 0-to-1
      step in the row's state history, where the history starts with the
      state remembered before the feed. */
  lemma {:induction false} RunCountsRises(nums: Numerals, t: Tracker, feed: seq<Received>, row: int)
    requires row == 1 || row == 2
    requires PrevOf(t, row).Some? ==> 0 <= PrevOf(t, row).value <= 1
    ensures CountRow(Run(nums, t, feed).log, row) ==
      CountRow(t.log, row) + RiseCount(History(PrevOf(t, row)) + States(nums, feed, row))
    decreases |feed|
  {
    var h := History(PrevOf(t, row));
    if feed == [] {
      assert h + [] == h;
    } else {
      var feed' := feed[..|feed| - 1];
      var rx := feed[|feed| - 1];
      var u' := Run(nums, t, feed');
      RunCountsRises(nums, t, feed', row);
      RunPrev(nums, t, feed', row);
      StepCount(nums, u', rx, row);
      HistoryInRange(nums, t, feed', row);
      RiseCountExtend(h + States(nums, feed', row), StateIn(nums, rx, row));
      StatesSnoc(nums, h, feed, row);
    }
  }

  /** One line sets `alerts[row]` exactly when it appends an event for `row`, and never clears it. */
  lemma StepAlert(nums: Numerals, u: Tracker, rx: Received, row: int)
    ensures var v := Step(nums, u, rx);
      && CountRow(u.log, row) <= CountRow(v.log, row)
      && (Flag(v.alerts, row) <==> Flag(u.alerts, row) || CountRow(u.log, row) < CountRow(v.log, row))
  {
    match Decode(nums, rx.line)
    case Accepted(r) =>
      ObserveCount(u, r, rx.time, row);
      ObserveSpec(u, r, rx.time);
    case _ =>
  }

  /** Alerts are latched: over any feed, `alerts[row]` ends up true exactly
      when it was true before or an event for `row` was appended. */
  lemma {:induction false} RunLatchesAlerts(nums: Numerals, t: Tracker, feed: seq<Received>, row: int)
    ensures var u := Run(nums, t, feed);
      && CountRow(t.log, row) <= CountRow(u.log, row)
      && (Flag(u.alerts, row) <==> Flag(t.alerts, row) || CountRow(t.log, row) < CountRow(u.log, row))
    decreases |feed|
  {
    if feed != [] {
      var feed' := feed[..|feed| - 1];
      RunLatchesAlerts(nums, t, feed', row);
      StepAlert(nums, Run(nums, t, feed'), feed[|feed| - 1], row);
    }
  }

  /** A cleared alert stays clear over a feed that has no 0-to-1 step for its row. */
  lemma ClearedAlertStaysClear(nums: Numerals, t: Tracker, feed: seq<Received>, row: int)
    requires row == 1 || row == 2
    requires PrevOf(t, row).Some? ==> 0 <= PrevOf(t, row).value <= 1
    requires !Flag(t.alerts, row)
    requires RiseCount(History(PrevOf(t, row)) + States(nums, feed, row)) == 0
    ensures !Flag(Run(nums, t, feed).alerts, row)
  {
    RunCountsRises(nums, t, feed, row);
    RunLatchesAlerts(nums, t, feed, row);
  }

  /** Lines that are not accepted can be removed from any feed without changing the outcome. */
  lemma {:induction false} RunSkipsDropped(nums: Numerals, t: Tracker, before: seq<Received>, dropped: Received, after: seq<Received>)
    requires !Decode(nums, dropped.line).Accepted?
    ensures Run(nums, t, before + [dropped] + after) == Run(nums, t, before + after)
    decreases |after|
  {
    if after == [] {
      assert before + [dropped] + after == before + [dropped];
      assert (before + [dropped])[..|before|] == before;
      assert before + after == before;
    } else {
      var after' := after[..|after| - 1];
      RunSkipsDropped(nums, t, before, dropped, after');
      assert (before + [dropped] + after)[..|before| + |after|] == before + [dropped] + after';
      assert (before + after)[..|before| + |after| - 1] == before + after';
    }
  }

  /** Decoding looks only at whether a line is blank or a header and at its first six fields. */
  lemma DecodeBySixFields(nums: Numerals, a: string, b: string)
    requires BlankOrHeader(a) == BlankOrHeader(b)
    requires |Split(a)| >= 6 && |Split(b)| >= 6
    requires Split(a)[..6] == Split(b)[..6]
    ensures Decode(nums, a) == Decode(nums, b)
  {
    var f, g := Split(a), Split(b);
    assert f[0] == g[0] && f[1] == g[1] && f[2] == g[2] by {
      assert f[0] == f[..6][0] && f[1] == f[..6][1] && f[2] == f[..6][2];
    }
    assert f[3] == g[3] && f[4] == g[4] && f[5] == g[5] by {
      assert f[3] == f[..6][3] && f[4] == f[..6][4] && f[5] == f[..6][5];
    }
  }

  /** Fields after the sixth are ignored. */
  lemma DecodeIgnoresExtraFields(nums: Numerals, line: string, extra: string)
    requires |Split(line)| >= 6
    ensures Decode(nums, line + [Comma] + extra) == Decode(nums, line)
  {
    var longer := line + [Comma] + extra;
    assert Split(longer)[..6] == Split(line)[..6] by {
      SplitAppend(line, extra);
    }
    assert |line| >= |Header| by {
      JoinSplit(line);
      JoinAtLeast(Split(line));
    }
    assert longer[..|Header|] == line[..|Header|];
    DecodeBySixFields(nums, longer, line);
  }

  /** A join of `n` fields holds at least `n - 1` commas. */
  lemma {:induction false} JoinAtLeast(fields: seq<string>)
    requires |fields| >= 1
    ensures |Join(fields)| >= |fields| - 1
    decreases |fields|
  {
    if |fields| > 1 {
      JoinAtLeast(fields[1..]);
    }
  }

  /** Two malformed lines: one with too few fields, and the header. */
  lemma DroppedExamples(nums: Numerals)
    ensures Decode(nums, "1,2") == Incomplete
    ensures Decode(nums, "Dist1,State1,Dist2,State2") == Skipped
  {
    assert Split("1,2") == Split("1") + Split("2") by {
      assert "1,2" == "1" + [Comma] + "2";
      SplitAppend("1", "2");
    }
    SplitCommaFree("1");
    SplitCommaFree("2");
  }

  /** The history 0, 0, 1, 1, 0 has one 0-to-1 step. */
  lemma FiveStepRises()
    ensures RiseCount([0, 0, 1, 1, 0]) == 1
  {
    var s: seq<int> := [0, 0, 1, 1, 0];
    assert s[..4] == [0, 0, 1, 1];
    assert s[..4][..3] == [0, 0, 1];
    assert s[..4][..3][..2] == [0, 0];
    assert RiseCount([0, 0]) == 0 by {
      assert [0, 0][..1] == [0];
    }
  }

  /** Row 1 reads 0, 0, 1, 1, 0 from a start with no remembered row-1
      state: exactly one event is logged for row 1. */
  lemma RowOneScenario(nums: Numerals, t: Tracker, feed: seq<Received>)
    requires t.prev1 == None
    requires States(nums, feed, 1) == [0, 0, 1, 1, 0]
    ensures CountRow(Run(nums, t, feed).log, 1) == CountRow(t.log, 1) + 1
  {
    RunCountsRises(nums, t, feed, 1);
    assert History(t.prev1) + States(nums, feed, 1) == [0, 0, 1, 1, 0];
    FiveStepRises();
  }
}
