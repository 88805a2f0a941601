/** The jar checklist's stores: the status table `jar_status`, the
    misplaced-jar reports `misplaced_jars`, and the counts the summary page
    shows. */
module JarStore {
  import opened Wrappers
  import opened Catalogue
  import opened Requests

  datatype Status = Present | Missing | Unchecked

  /** A value of `jar_status`: `{"status", "row", "time"}`. `row` is kept as the request sent it. */
  datatype JarRecord = JarRecord(status: Status, row: Json, time: Option<string>)

  /** An entry of `misplaced_jars`: `{"jar", "found_in", "correct_row", "time"}`. */
  datatype MisplacedEntry = MisplacedEntry(jar: Json, foundIn: Json, correctRow: Option<int>, time: string)

  /** The record `get_jar_status` reports for a jar of `row` that nobody has checked yet. */
  function UncheckedRecord(row: int): JarRecord
  {
    JarRecord(Unchecked, Int(row), None)
  }

  /** What every stored record satisfies: its jar is in the catalogue, its
      status is present or missing, and its row is the catalogue row of the jar. */
  predicate Recorded(cat: Rows, table: map<string, JarRecord>)
  {
    forall j :: j in table ==>
      && (table[j].status == Present || table[j].status == Missing)
      && CorrectRow(cat, j).Some?
      && RowKey(table[j].row) == CorrectRow(cat, j)
  }

  /** The request `update_jar_status` accepts: all three fields present and
      true, a status of "present" or "missing", and a jar listed in the given row. */
  predicate AcceptsUpdate(cat: Rows, data: map<string, Json>): (ok: bool)
    ensures ok ==> Get(data, "jar_id").Str? && Get(data, "status").Str? && RowKey(Get(data, "row")).Some?
  {
    var id, st, row := Get(data, "jar_id"), Get(data, "status"), Get(data, "row");
    && Truthy(id) && Truthy(st) && Truthy(row)
    && (st == Str("present") || st == Str("missing"))
    && RowKey(row).Some? && JarsOf(cat, RowKey(row).value).Some?
    && id.Str? && id.text in JarsOf(cat, RowKey(row).value).value
  }

  /** In a well-formed catalogue the row of an accepted update is the row
      the catalogue search finds for the jar. */
  lemma AcceptedRowIsCorrect(cat: Rows, data: map<string, Json>)
    requires WellFormed(cat)
    requires AcceptsUpdate(cat, data)
    ensures CorrectRow(cat, Get(data, "jar_id").text) == RowKey(Get(data, "row"))
  {
    CorrectRowSpec(cat, Get(data, "jar_id").text, RowKey(Get(data, "row")).value);
  }

  /** Storing an accepted update keeps every record a catalogue jar with its own row. */
  lemma UpdateKeepsRecorded(cat: Rows, table: map<string, JarRecord>, data: map<string, Json>, now: string)
    requires WellFormed(cat)
    requires Recorded(cat, table)
    requires AcceptsUpdate(cat, data)
    ensures var id, st, row := Get(data, "jar_id"), Get(data, "status"), Get(data, "row");
      Recorded(cat, table[id.text := JarRecord(if st == Str("present") then Present else Missing, row, Some(now))])
  {
    var id, row := Get(data, "jar_id"), Get(data, "row");
    CorrectRowSpec(cat, id.text, RowKey(row).value);
  }

  /** The five counts of the summary page, and the unchecked count it derives. */
  datatype Counts = Counts(total: nat, checked: nat, present: nat, missing: nat, misplaced: nat, unchecked: int)

  function WithStatus(table: map<string, JarRecord>, s: Status): set<string>
  {
    set j | j in table && table[j].status == s
  }

  /** The counts `misplaced_page` computes: total catalogue jars, records that
      are present or missing, present ones, missing ones, reports, and the
      difference of the first two. Present and missing records together are
      exactly the checked ones. */
  function Summary(cat: Rows, table: map<string, JarRecord>, reports: nat): (c: Counts)
    ensures c.present + c.missing == c.checked
    ensures c.unchecked == c.total - c.checked
  {
    var checked := set j | j in table && (table[j].status == Present || table[j].status == Missing);
    assert checked == WithStatus(table, Present) + WithStatus(table, Missing);
    Counts(TotalJars(cat), |checked|, |WithStatus(table, Present)|, |WithStatus(table, Missing)|,
           reports, TotalJars(cat) - |checked|)
  }

  /** With every record a catalogue jar, every record counts as checked, and
      no more jars are checked than the catalogue holds: the unchecked count
      is never negative. */
  lemma SummaryConsistent(cat: Rows, table: map<string, JarRecord>, reports: nat)
    requires Recorded(cat, table)
    ensures var c := Summary(cat, table, reports);
      c.checked == |table| && c.checked <= c.total && c.unchecked >= 0
  {
    var checked := set j | j in table && (table[j].status == Present || table[j].status == Missing);
    assert checked == table.Keys;
    assert table.Keys <= JarSet(cat) by {
      forall j | j in table ensures j in JarSet(cat) {
        CorrectRowNone(cat, j);
      }
    }
    assert |table.Keys| <= |JarSet(cat)| by {
      SubsetSize(table.Keys, JarSet(cat));
    }
    JarSetSize(cat);
  }

  lemma SubsetSize(a: set<string>, b: set<string>)
    requires a <= b
    ensures |a| <= |b|
  {
    assert b == a + (b - a);
  }
}
