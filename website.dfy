/** The current dashboard's shared state and the handlers that read and
    update it. The serial reader thread and the request handlers share one
    `JarTracker`; each method is one handler call or one batch of lines read
    by the reader's loop, which resumes where the previous batch stopped. */
module Website {
  import opened Wrappers
  import opened Feed
  import opened Ingest
  import opened Views
  import opened Catalogue
  import opened Requests
  import opened JarStore

  /** The `for row, jars in row_jars.items(): if jar in jars: ... break` search:
      the first catalogue row listing the jar, which is its only row. */
  method FindCorrectRow(jar: Json) returns (correct: Option<int>)
    ensures correct == (if jar.Str? then CorrectRow(RowJars, jar.text) else None)
    ensures forall row :: correct == Some(row) <==>
      jar.Str? && JarsOf(RowJars, row).Some? && jar.text in JarsOf(RowJars, row).value
  {
    correct := None;
    var i := 0;
    while i < |RowJars|
      invariant 0 <= i <= |RowJars|
      invariant correct == None
      invariant jar.Str? ==> CorrectRow(RowJars, jar.text) == CorrectRow(RowJars[i..], jar.text)
    {
      if jar.Str? && jar.text in RowJars[i].1 {
        correct := Some(RowJars[i].0);
        break;
      }
      assert RowJars[i..][1..] == RowJars[i + 1..];
      i := i + 1;
    }
    RowJarsWellFormed();
    forall row ensures correct == Some(row) <==>
      jar.Str? && JarsOf(RowJars, row).Some? && jar.text in JarsOf(RowJars, row).value
    {
      if jar.Str? {
        CorrectRowSpec(RowJars, jar.text, row);
      }
    }
  }

  class JarTracker {
    var latest: Option<Reading>
    var prev1: Option<int>
    var prev2: Option<int>
    var events: seq<Event>
    var alerts: map<int, bool>
    var misplaced: seq<MisplacedEntry>
    var jarStatus: map<string, JarRecord>

    /** The part of the state the serial reader works on. */
    ghost function Monitor(): Tracker
      reads this
    {
      Tracker(latest, prev1, prev2, events, alerts)
    }

    /** Both rows have an alert flag, the remembered states are 0 or 1, and
        every status record is a catalogue jar with its own row. */
    ghost predicate Valid()
      reads this
    {
      && 1 in alerts && 2 in alerts
      && (prev1.Some? ==> 0 <= prev1.value <= 1)
      && (prev2.Some? ==> 0 <= prev2.value <= 1)
      && Recorded(RowJars, jarStatus)
    }

    /** The state at start-up: no reading yet, no events, both alerts off, empty stores. */
    constructor ()
      ensures Valid()
      ensures latest == None && prev1 == None && prev2 == None && events == []
      ensures alerts == map[1 := false, 2 := false] && misplaced == [] && jarStatus == map[]
    {
      latest, prev1, prev2, events := None, None, None, [];
      alerts, misplaced, jarStatus := map[1 := false, 2 := false], [], map[];
    }

    /** One pass of the reader's loop: decode the line and, when it is
        accepted, store it, log and latch the rows that changed to 1, and
        remember the new states. */
    method ReadLine(nums: Numerals, rx: Received)
      requires Valid()
      modifies this
      ensures Valid()
      ensures Monitor() == Step(nums, old(Monitor()), rx)
      ensures misplaced == old(misplaced) && jarStatus == old(jarStatus)
    {
      match Decode(nums, rx.line) {
        case Accepted(r) =>
          latest := Some(r);
          if prev1.Some? && prev1.value != r.state1 && r.state1 == 1 {
            events := events + [Event(rx.time, 1, NeedsChecking, r.dist1)];
            alerts := alerts[1 := true];
          }
          if prev2.Some? && prev2.value != r.state2 && r.state2 == 1 {
            events := events + [Event(rx.time, 2, NeedsChecking, r.dist2)];
            alerts := alerts[2 := true];
          }
          prev1, prev2 := Some(r.state1), Some(r.state2);
        case _ =>
      }
    }

    /** The reader's loop over a batch of lines. */
    method ReadSerial(nums: Numerals, feed: seq<Received>)
      requires Valid()
      modifies this
      ensures Valid()
      ensures Monitor() == Run(nums, old(Monitor()), feed)
      ensures misplaced == old(misplaced) && jarStatus == old(jarStatus)
    {
      ghost var start := Monitor();
      var i := 0;
      while i < |feed|
        invariant 0 <= i <= |feed|
        invariant Valid()
        invariant Monitor() == Run(nums, start, feed[..i])
        invariant misplaced == old(misplaced) && jarStatus == old(jarStatus)
      {
        RunSnoc(nums, start, feed, i);
        ReadLine(nums, feed[i]);
        i := i + 1;
      }
      assert feed[..i] == feed;
    }

    /** `/log`: the last 50 events, oldest first. */
    method GetLog() returns (r: seq<Event>)
      ensures |r| == Min(50, |events|)
      ensures events == events[..|events| - |r|] + r
    {
      r := Tail(events, 50);
    }

    /** The event-log page: the last 100 events, newest first. */
    method EventLogPage() returns (r: seq<Event>)
      ensures |r| == Min(100, |events|)
      ensures forall i :: 0 <= i < |r| ==> r[i] == events[|events| - 1 - i]
    {
      r := if events != [] then NewestFirst(events, 100) else [];
    }

    /** `/clear_alert/<row>`: turns the row's alert off, whatever the sensor
        says, and reports success. Any non-negative row is accepted. */
    method ClearAlert(row: nat) returns (success: bool)
      requires Valid()
      modifies this
      ensures Valid() && success
      ensures alerts == old(alerts)[row := false]
      ensures latest == old(latest) && prev1 == old(prev1) && prev2 == old(prev2) && events == old(events)
      ensures misplaced == old(misplaced) && jarStatus == old(jarStatus)
    {
      alerts := alerts[row := false];
      success := true;
    }

    /** `/mark_wrong_jar`: with both `jar` and `found_in` given, records one
        report with the jar's catalogue row (or none, for an unknown jar) and
        returns that row; otherwise answers 400 and records nothing. */
    method MarkWrongJar(data: map<string, Json>, now: string) returns (reply: Reply<Option<int>>)
      requires Valid()
      modifies this
      ensures Valid()
      ensures reply.Fail? <==> !Truthy(Get(data, "jar")) || !Truthy(Get(data, "found_in"))
      ensures reply.Fail? ==> reply == Fail(400, "Missing data") && misplaced == old(misplaced)
      ensures reply.Ok? ==>
        misplaced == old(misplaced) + [MisplacedEntry(Get(data, "jar"), Get(data, "found_in"), reply.value, now)]
      ensures reply.Ok? ==> forall row :: reply.value == Some(row) <==>
        Get(data, "jar").Str? && JarsOf(RowJars, row).Some? && Get(data, "jar").text in JarsOf(RowJars, row).value
      ensures Monitor() == old(Monitor()) && jarStatus == old(jarStatus)
    {
      var jar, foundIn := Get(data, "jar"), Get(data, "found_in");
      if !Truthy(jar) || !Truthy(foundIn) {
        reply := Fail(400, "Missing data");
        return;
      }
      var correct := FindCorrectRow(jar);
      misplaced := misplaced + [MisplacedEntry(jar, foundIn, correct, now)];
      reply := Ok(correct);
    }

    /** `/update_jar_status`: checks the request in the source's order and,
        only when it is accepted, stores the jar's record and nothing else. */
    method UpdateJarStatus(data: map<string, Json>, now: string) returns (reply: Reply<string>)
      requires Valid()
      modifies this
      ensures Valid()
      ensures reply.Ok? <==> AcceptsUpdate(RowJars, data)
      ensures var id, st, row := Get(data, "jar_id"), Get(data, "status"), Get(data, "row");
        && (!Truthy(id) || !Truthy(st) || !Truthy(row) ==> reply == Fail(400, "Missing required data"))
        && (Truthy(id) && Truthy(st) && Truthy(row) && st != Str("present") && st != Str("missing") ==>
              reply == Fail(400, "Invalid status"))
        && (reply.Fail? && Truthy(id) && Truthy(st) && Truthy(row) && (st == Str("present") || st == Str("missing")) ==>
              reply == (if row.Compound? then Fail(500, "Internal Server Error") else Fail(400, "Jar not found in specified row")))
        && (reply.Ok? ==>
              && jarStatus == old(jarStatus)[id.text := JarRecord(if st == Str("present") then Present else Missing, row, Some(now))]
              && reply.value == "Jar " + id.text + " marked as " + st.text)
      ensures reply.Fail? ==> jarStatus == old(jarStatus)
      ensures Monitor() == old(Monitor()) && misplaced == old(misplaced)
    {
      var id, st, row := Get(data, "jar_id"), Get(data, "status"), Get(data, "row");
      if !Truthy(id) || !Truthy(st) || !Truthy(row) {
        return Fail(400, "Missing required data");
      }
      if st != Str("present") && st != Str("missing") {
        return Fail(400, "Invalid status");
      }
      if row.Compound? {
        // a list or an object is unhashable: the dictionary lookup raises and Flask answers 500
        return Fail(500, "Internal Server Error");
      }
      var key := RowKey(row);
      if key.None? || JarsOf(RowJars, key.value).None? || !(id.Str? && id.text in JarsOf(RowJars, key.value).value) {
        return Fail(400, "Jar not found in specified row");
      }
      RowJarsWellFormed();
      UpdateKeepsRecorded(RowJars, jarStatus, data, now);
      jarStatus := jarStatus[id.text := JarRecord(if st == Str("present") then Present else Missing, row, Some(now))];
      reply := Ok("Jar " + id.text + " marked as " + st.text);
    }

    /** `/get_jar_status/<row>`: 404 for a row not in the catalogue; otherwise
        one record per jar of the row, the stored one or an unchecked default. */
    method GetJarStatus(row: nat) returns (reply: Reply<map<string, JarRecord>>)
      ensures reply.Fail? <==> JarsOf(RowJars, row).None?
      ensures reply.Fail? ==> reply == Fail(404, "Invalid row")
      ensures reply.Ok? ==> reply.value.Keys == set j | j in JarsOf(RowJars, row).value
      ensures reply.Ok? ==> forall j :: j in reply.value ==>
        reply.value[j] == if j in jarStatus then jarStatus[j] else UncheckedRecord(row)
      ensures reply.Ok? && Valid() ==> forall j :: j in reply.value ==>
        (reply.value[j].status == Unchecked <==> j !in jarStatus)
    {
      var jars := JarsOf(RowJars, row);
      if jars.None? {
        return Fail(404, "Invalid row");
      }
      var js := jars.value;
      var m: map<string, JarRecord> := map[];
      for i := 0 to |js|
        invariant m.Keys == set j | j in js[..i]
        invariant forall j :: j in m ==> m[j] == if j in jarStatus then jarStatus[j] else UncheckedRecord(row)
      {
        assert js[..i + 1] == js[..i] + [js[i]];
        if js[i] in jarStatus {
          m := m[js[i] := jarStatus[js[i]]];
        } else {
          m := m[js[i] := UncheckedRecord(row)];
        }
      }
      assert js[..|js|] == js;
      reply := Ok(m);
    }

    /** The summary counts of the missing-and-misplaced page. */
    method MisplacedPage() returns (c: Counts)
      ensures c == Summary(RowJars, jarStatus, |misplaced|)
      ensures c.present + c.missing == c.checked
      ensures Valid() ==> c.checked == |jarStatus| && c.unchecked >= 0
    {
      c := Summary(RowJars, jarStatus, |misplaced|);
      if Valid() {
        SummaryConsistent(RowJars, jarStatus, |misplaced|);
      }
    }
  }
}
