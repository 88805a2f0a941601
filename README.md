# Jar tracking: sensor ingest, alert tracker and in-memory stores

This project models, in Dafny, the logic of the jar-tracking dashboard.
A microcontroller reports two ultrasonic distances and two row states over
a serial line. A background reader turns each line into a reading. For each
row, it logs an event and raises a latched "needs checking" alert when the
row's state changes from 0 to 1. HTTP handlers show the event log, clear
alerts, record jar checks and misplaced-jar reports against a fixed jar
catalogue, and compute the summary counts of the checklist pages.

There are two variants of the program, and both are modelled:

- `jar_tracking_website.py`, the current dashboard (modules `Ingest`, `JarStore`, `Website`):
  - accepts any line with at least four fields;
  - normalises a state to 0 or 1;
  - reads optional thresholds;
  - fires only on a 0-to-1 change and latches the alert.
- `jar_tracking_old.py`, the earlier monitor (modules `IngestOld`, `WebsiteOld`):
  - accepts only lines of exactly six fields;
  - keeps states as sent;
  - logs "Change detected" on any change of a state, in either direction.

Layout:

- `wrappers.dfy`: `Option`.
- `strings.dfy`: Python's `str.split(",")` and `",".join`, with their round trips.
- `views.dfy`: the slice `log[-n:]` and `reversed`.
- `feed.dfy`: what both readers share:
  - the input line and its timestamp;
  - the abstract `int`/`float` parsers;
  - the event record and the header test;
  - counting a row's events.
- `ingest.dfy`, `ingest_old.dfy`: each reader as functions.
  - `Decode` handles one line and `Observe` one accepted reading.
  - `Step` is one pass of the loop and `Run` a whole feed.
  - The lemmas characterise them over arbitrary feeds.
- `catalogue.dfy`: `row_jars`, the row lookup and the first-row search.
- `requests.dfy`: JSON request values, Python truthiness, `dict.get` and the reply type.
- `jar_store.dfy`: the jar-status records, the acceptance rule of a status update, and the summary counts.
- `website.dfy`: the current dashboard's shared state as the class `JarTracker`.
  - The serial loop is a method with a `while` loop proved against `Ingest.Run`.
  - Each handler is a method whose `ensures` gives its reply and the whole new state.
- `website_old.dfy`: the earlier monitor's state as the class `OldMonitor`.

The reader thread lives as long as the process. The remembered previous
states (`prev_state1`, `prev_state2`) are fields of the class, so one call of
`ReadSerial` is a batch of lines and the next batch continues where it
stopped. Handler calls can come between two batches.

Behaviour of the code worth noting:

- The earlier variant has its own field-count rule, keeps raw states, and
  logs every change (`jar_tracking_old.py:29-54`).
- `/clear_alert/<int:row>` accepts any non-negative row, and for a row other
  than 1 or 2 it adds a key to `alerts` (`jar_tracking_website.py:177-180`).
  So the alert table is not confined to rows 1 and 2.
- An unknown jar in `/mark_wrong_jar` still succeeds, with `correct_row` None
  (`jar_tracking_website.py:192-211`). Only the message says the jar was not found.
- The event log itself is unbounded. Only its views are capped, at 50 and 100.

## Model

| member | source | states |
|---|---|---|
| Strings.Split | jar_tracking_website.py:83 | `line.split(",")` is never empty and no field contains a comma |
| Strings.JoinSplit | jar_tracking_website.py:83 | joining the split fields with commas gives back the line |
| Strings.SplitJoin | jar_tracking_website.py:83 | splitting a join of comma-free fields gives back the fields |
| Strings.SplitCommaFree | jar_tracking_website.py:83 | a line without commas is one field |
| Strings.SplitAppend | jar_tracking_website.py:83 | a comma between two strings separates their fields |
| Views.Tail | jar_tracking_website.py:171 | `s[-n:]` has `min(n, len(s))` elements and is a suffix of `s` |
| Views.Reverse | jar_tracking_website.py:1082 | element `i` of `reversed(s)` is element `len(s)-1-i` of `s` |
| Views.NewestFirst | jar_tracking_website.py:1079-1082 | the page shows the last `min(n, len(s))` events, newest first |
| Views.ReverseReverse | jar_tracking_website.py:1082 | reversing twice restores the order |
| Views.NewestFirstIsReversedTail | jar_tracking_website.py:1079-1082 | the event page is the reversed tail view, so it shows the same events |
| Feed.BlankOrHeader | jar_tracking_website.py:81 | a line is skipped iff it is empty or its first five characters are "Dist1", which is what `startswith` tests |
| Feed.CountRowAppend | jar_tracking_website.py:114-130 | counting a row's events distributes over appending to the log |
| Ingest.Decode | jar_tracking_website.py:80-98 | an accepted line's states are 0 or 1 |
| Ingest.DecodeSpec | jar_tracking_website.py:80-98 | a line is skipped iff it is empty or starts with "Dist1"; it is incomplete iff it is not skipped and has fewer than 4 fields; it is unparsable iff it has 4 or more fields and one of the first four, or a present fifth or sixth, does not parse, so every other line is accepted; an accepted state is 1 iff its raw value is above 0; the distances are the parsed fields; a present threshold is its parsed field and an absent lower or upper threshold is 30.0 or 40.0 |
| Ingest.DecodeBySixFields | jar_tracking_website.py:90-95 | two lines that agree on the skip test and on their first six fields decode alike |
| Ingest.DecodeIgnoresExtraFields | jar_tracking_website.py:90-95 | fields after the sixth never change the decoded reading |
| Ingest.DroppedExamples | jar_tracking_website.py:81-86 | "1,2" is dropped as incomplete and the header line is skipped |
| Ingest.Observe | jar_tracking_website.py:100-132 | an accepted reading becomes `latest_data` and the remembered states; the log only grows; no alert key is lost |
| Ingest.ObserveSpec | jar_tracking_website.py:113-132 | a reading appends exactly the events of the rows whose known previous state differs and whose new state is 1; the row-1 event comes before the row-2 event; each event carries the time, "Needs checking" and the row's distance; a row's alert becomes true exactly when it fires, and no alert is ever cleared |
| Ingest.Fires | jar_tracking_website.py:113 | no event on the first reading of a row, none from state 1, and an event only into state 1 |
| Ingest.FiresIsRise | jar_tracking_website.py:113 | with states in {0,1}, the event condition is exactly previous 0 and new 1 |
| Ingest.ObserveCount | jar_tracking_website.py:113-130 | one reading adds one event for a row iff the row's condition holds |
| Ingest.StepCount | jar_tracking_website.py:80-132 | one line adds one event for a row iff it is accepted and the row's condition holds |
| Ingest.StepPrev | jar_tracking_website.py:132 | the remembered state moves to the line's state iff the line is accepted |
| Ingest.Step | jar_tracking_website.py:80-132 | one pass of the loop never shortens the log or drops an alert key, and a dropped line changes nothing |
| Ingest.Run | jar_tracking_website.py:44-132 | over any feed the log only grows and no alert key disappears |
| Ingest.RunPrev | jar_tracking_website.py:132 | after a feed, the remembered state of a row is the last state in its history |
| Ingest.StateIn | jar_tracking_website.py:90-92 | a line contributes at most one state per row, 0 or 1 |
| Ingest.States | jar_tracking_website.py:90-92 | every state in a row's decoded history is 0 or 1 |
| Ingest.HistoryInRange | jar_tracking_website.py:90-92 | the remembered state followed by the decoded states stays in {0,1} |
| Ingest.RiseCountExtend | jar_tracking_website.py:113 | extending a history by one state adds a 0-to-1 step iff the event condition holds |
| Ingest.RunCountsRises | jar_tracking_website.py:113-132 | over any feed, the events logged for a row are exactly the 0-to-1 steps of its state history, which starts with the remembered state (its induction unfolds the history one line at a time with `Ingest.StatesSnoc`) |
| Ingest.StepAlert | jar_tracking_website.py:113-130 | after one line, a row's alert is on iff it was on or the line logged an event for the row |
| Ingest.RunLatchesAlerts | jar_tracking_website.py:113-132 | over any feed, a row's alert is on iff it was on before or some event for the row was logged; the reader never turns an alert off |
| Ingest.ClearedAlertStaysClear | jar_tracking_website.py:113-132 | a cleared alert stays off over a feed without a 0-to-1 step for its row |
| Ingest.RunSkipsDropped | jar_tracking_website.py:81-98 | a dropped line, whether blank, header, short or unparsable, leaves the whole state as if it had never arrived |
| Ingest.FiveStepRises | jar_tracking_website.py:113 | the state history 0,0,1,1,0 has exactly one 0-to-1 step |
| Ingest.RowOneScenario | jar_tracking_website.py:113-121 | from the first reading, row-1 states 0,0,1,1,0 log exactly one row-1 event |
| IngestOld.Decode | jar_tracking_old.py:24-34 | an accepted line is neither blank nor a header and has exactly six fields |
| IngestOld.DecodeSpec | jar_tracking_old.py:24-34 | a line is skipped iff it is empty or starts with "Dist1"; other lines are accepted only with exactly six fields whose first four parse; the states are kept as parsed; a parse failure on exactly six fields changes nothing |
| IngestOld.Observe | jar_tracking_old.py:30-54 | an accepted reading becomes `latest_data` and the remembered states; the log only grows |
| IngestOld.Changed | jar_tracking_old.py:37 | no event on the first reading of a row, none when the state repeats, and an event on a rise and on a fall |
| IngestOld.ObserveSpec | jar_tracking_old.py:37-52 | a reading appends exactly the "Change detected" events of the rows whose known previous state differs from the new one, row 1 before row 2 |
| IngestOld.ObserveCount | jar_tracking_old.py:37-52 | one reading adds one event for a row iff its state changed |
| IngestOld.StepCount | jar_tracking_old.py:24-54 | one line adds one event for a row iff it is accepted and the row's state changed |
| IngestOld.StepPrev | jar_tracking_old.py:54 | the remembered state moves to the line's state iff the line is accepted |
| IngestOld.Step | jar_tracking_old.py:23-54 | one pass of the loop never shortens the log, and a dropped line changes nothing |
| IngestOld.Run | jar_tracking_old.py:20-58 | over any feed the log only grows |
| IngestOld.RunPrev | jar_tracking_old.py:54 | after a feed, the remembered state is the last state in the row's history |
| IngestOld.StateIn | jar_tracking_old.py:30 | a line contributes at most one state per row |
| IngestOld.ChangeCountExtend | jar_tracking_old.py:37 | extending a history by one state adds a change iff it differs from the last known state |
| IngestOld.RunCountsChanges | jar_tracking_old.py:37-54 | over any feed, the events logged for a row are exactly the changes, in either direction, in its state history (unfolded one line at a time with `IngestOld.StatesSnoc`) |
| IngestOld.RunSkipsDropped | jar_tracking_old.py:24-58 | a skipped, wrong-length or unparsable line leaves the whole state as if it had never arrived |
| IngestOld.RisesAreChanges | jar_tracking_old.py:37 | on one sequence of states, the changes counted by the earlier rule are at least the 0-to-1 steps counted by the current one |
| IngestOld.FallIsOnlyAChange | jar_tracking_old.py:37 | a 1-to-0 step is a change for the earlier reader and no event for the current one |
| Catalogue.JarsOf | jar_tracking_website.py:34-37 | `row_jars[row]` is the list stored under `row`, and None iff no row has that key |
| Catalogue.RowJarsWellFormed | jar_tracking_website.py:34-37 | the catalogue's row keys are distinct and no jar is in two rows |
| Catalogue.CorrectRowFound | jar_tracking_website.py:192-196 | the search over `row_jars` returns a row whose list holds the jar with no earlier row holding it, and None iff no row holds the jar |
| Catalogue.CorrectRowSpec | jar_tracking_website.py:192-196 | in a well-formed catalogue the first row listing a jar is `row` iff `row`'s list holds the jar |
| Catalogue.CorrectRowNone | jar_tracking_website.py:192-196 | the search finds no row iff the jar is in no row |
| Catalogue.TotalJars | jar_tracking_website.py:902 | `total_jars` is at least the length of every row's list |
| Catalogue.JarSetSize | jar_tracking_website.py:902 | the catalogue holds at most `total_jars` distinct jars (each row's list bounded by `Catalogue.DistinctAtMost`) |
| Requests.TruthySpec | jar_tracking_website.py:188 | the values `not x` rejects are exactly None, False, 0, "" and an empty list or object |
| Requests.RowKeySpec | jar_tracking_website.py:228 | a JSON row finds the dictionary key `n` iff it equals `n` in Python: the number `n`, or `True` for 1 and `False` for 0 |
| JarStore.AcceptsUpdate | jar_tracking_website.py:221-229 | an accepted request names a string jar, a string status and a row that is a catalogue key |
| JarStore.AcceptedRowIsCorrect | jar_tracking_website.py:228-229 | in a well-formed catalogue, such as the shipped one, the row of an accepted update is the row the search for the jar returns |
| JarStore.UpdateKeepsRecorded | jar_tracking_website.py:221-236 | storing an accepted update keeps every record a catalogue jar with status present or missing and its own catalogue row |
| JarStore.Summary | jar_tracking_website.py:902-906 | present plus missing is the checked count, and unchecked is total minus checked |
| JarStore.SummaryConsistent | jar_tracking_website.py:902-904 | when every record is a catalogue jar, every record counts as checked, checked is at most total, and unchecked is never negative (via `JarStore.SubsetSize`) |
| Website.FindCorrectRow | jar_tracking_website.py:192-196 | the loop finds the first catalogue row listing the jar; the result is `row` iff that row's list holds the jar |
| Website.JarTracker.constructor | jar_tracking_website.py:27-31 | start-up state: no reading, no previous states, empty log and stores, both alerts false |
| Website.JarTracker.ReadLine | jar_tracking_website.py:80-132 | one pass of the loop is `Ingest.Step`; the stores are untouched and the invariant holds |
| Website.JarTracker.ReadSerial | jar_tracking_website.py:40-132 | the loop over a feed leaves the reader state equal to `Ingest.Run` of the old state, and the jar stores untouched (each iteration unfolds `Run` by one line with `Ingest.RunSnoc`) |
| Website.JarTracker.GetLog | jar_tracking_website.py:169-171 | `/log` returns the last `min(50, n)` events in insertion order |
| Website.JarTracker.EventLogPage | jar_tracking_website.py:1079-1082 | the event page shows the last `min(100, n)` events, newest first |
| Website.JarTracker.ClearAlert | jar_tracking_website.py:177-180 | only `alerts[row]` changes, to false, for any non-negative row, and the reply is success |
| Website.JarTracker.MarkWrongJar | jar_tracking_website.py:182-211 | 400 "Missing data" iff `jar` or `found_in` is falsy, with nothing appended; otherwise exactly one entry is appended, whose correct row is `row` iff that row lists the jar |
| Website.JarTracker.UpdateJarStatus | jar_tracking_website.py:213-238 | accepted iff all three fields are truthy, the status is "present" or "missing" and the row lists the jar; the 400 and 500 replies in the source's order; only `jar_status[jar_id]` changes, and only on success |
| Website.JarTracker.GetJarStatus | jar_tracking_website.py:240-253 | 404 iff the row is not in the catalogue; otherwise the keys are exactly the row's jars, each with its stored record or an unchecked default, unchecked iff unrecorded |
| Website.JarTracker.MisplacedPage | jar_tracking_website.py:902-906 | the counts of the summary page; with the class invariant, unchecked is never negative |
| WebsiteOld.OldMonitor.constructor | jar_tracking_old.py:16-21 | start-up state: no reading, no previous states, empty log |
| WebsiteOld.OldMonitor.ReadLine | jar_tracking_old.py:23-54 | one pass of the loop is `IngestOld.Step` |
| WebsiteOld.OldMonitor.ReadSerial | jar_tracking_old.py:20-58 | the loop over a feed leaves the state equal to `IngestOld.Run` of the old state (each iteration unfolds `Run` by one line with `IngestOld.RunSnoc`) |
| WebsiteOld.OldMonitor.GetLog | jar_tracking_old.py:75-77 | `/log` returns the last `min(50, n)` events in insertion order |

## Left out

- Serial I/O: `readline`, UTF-8 decoding, `strip`, the connection attempt and the mock fallback are device I/O. The input is a given sequence of already stripped lines.
- The mock generator depends on `random`, so it is not modelled.
- The background thread, `time.sleep` and the endless loop are not modelled. One `ReadSerial` call is a finite batch, and the unsynchronised sharing with handlers is reduced to calls taking turns.
- The exception handler's log message and back-off are not modelled. A line whose fields do not parse is dropped like any other.
- Python's `int(...)` and `float(...)` are two abstract partial parsers. Distances and thresholds are exact reals: floating point is not modelled.
- `round(dist, 1)` is not modelled: an event carries the parsed distance.
- Timestamps from `datetime.now()` are parameters. Both events raised by one line carry the same timestamp.
- Console `print`s are not modelled.
- Flask routing, `request.json` and `jsonify` are library glue. A request body is a map from keys to JSON values, and a reply is `Ok` or an HTTP code with the error text.
- A request body that is not a JSON object is not modelled.
- JSON numbers with a fractional part are not modelled. For example, the row `1.0`, which Python would find under key 1.
- Website.JarTracker.MarkWrongJar: the `message` text of the reply is not modelled, because it formats an arbitrary JSON value with `str()`. The reply carries `correct_row`.
- `/alerts`, `/events` (server-sent events), `/qr/<row>` and every HTML page are UI or a foreign library. The counts on the missing-and-misplaced page are modelled; the page around them is not.
- The list of missing jars built by `misplaced_page` is represented only by its count.
