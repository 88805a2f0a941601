/** What both variants of the serial reader share: the input lines, the
    number parsers they call, the event records they log, and counting
    events per row. */
module Feed {
  import opened Wrappers

  /** A line that arrived on the serial port (already decoded and stripped),
      with the timestamp the reader stamps on any event it raises for it. */
  datatype Received = Received(line: string, time: string)

  /** Python's `int(...)` and `float(...)` on one field: `None` where Python
      raises `ValueError`. Distances and thresholds are kept as reals. */
  datatype Numerals = Numerals(parseInt: string -> Option<int>, parseFloat: string -> Option<real>)

  /** An entry of `event_log`: `{"time", "row", "event", "distance"}`. */
  datatype Event = Event(time: string, row: int, kind: string, distance: real)

  /** The header line the microcontroller prints starts with this. */
  const Header: string := "Dist1"

  /** An empty line or the microcontroller's header line: both readers skip
      it. `line.startswith("Dist1")` holds exactly when the first five
      characters are the header. */
  predicate BlankOrHeader(line: string): (skip: bool)
    ensures skip <==> |line| == 0 || (|line| >= 5 && line[..5] == ['D', 'i', 's', 't', '1'])
  {
    line == [] || Header <= line
  }

  /** The remembered state of a row as a sequence: empty before the first reading. */
  function History(prev: Option<int>): seq<int>
  {
    match prev
    case None => []
    case Some(s) => [s]
  }

  /** The last element of `s`, if any. */
  function Last(s: seq<int>): Option<int>
  {
    if s == [] then None else Some(s[|s| - 1])
  }

  /** How many events of `log` are about `row`. */
  function CountRow(log: seq<Event>, row: int): (n: nat)
    ensures n <= |log|
  {
    if log == [] then 0
    else CountRow(log[..|log| - 1], row) + (if log[|log| - 1].row == row then 1 else 0)
  }

  /** Counting distributes over appending to the log. */
  lemma {:induction false} CountRowAppend(a: seq<Event>, b: seq<Event>, row: int)
    ensures CountRow(a + b, row) == CountRow(a, row) + CountRow(b, row)
    decreases |b|
  {
    if b == [] {
      assert a + b == a;
    } else {
      var b' := b[..|b| - 1];
      assert (a + b)[..|a + b| - 1] == a + b';
      assert (a + b)[|a + b| - 1] == b[|b| - 1];
      CountRowAppend(a, b', row);
    }
  }
}
