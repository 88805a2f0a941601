/** The static jar catalogue `row_jars`: for each row, in the dictionary's
    order, the ids of the jars that belong there. */
module Catalogue {
  import opened Wrappers

  /** Rows in insertion order, each with its list of jar ids. */
  type Rows = seq<(int, seq<string>)>

  const RowJars: Rows := [
    (1, ["H004040", "H004041"]),
    (2, ["R0244", "R0245", "R0246", "R0247", "R47376", "R47346", "R47347"])
  ]

  /** `row_jars[row]` if `row in row_jars`. */
  function JarsOf(cat: Rows, row: int): (js: Option<seq<string>>)
    ensures js.Some? ==> exists i :: 0 <= i < |cat| && cat[i] == (row, js.value)
    ensures js.None? ==> forall i :: 0 <= i < |cat| ==> cat[i].0 != row
  {
    if cat == [] then None
    else if cat[0].0 == row then Some(cat[0].1)
    else
      var js := JarsOf(cat[1..], row);
      assert js.Some? ==> exists i :: 0 <= i < |cat[1..]| && cat[1..][i] == (row, js.value);
      js
  }

  /** The first row, in catalogue order, whose list holds `jar`. */
  function CorrectRow(cat: Rows, jar: string): Option<int>
  {
    if cat == [] then None
    else if jar in cat[0].1 then Some(cat[0].0)
    else CorrectRow(cat[1..], jar)
  }

  /** The search finds a row whose list holds the jar, and no earlier row
      holds it; it finds none exactly when no row holds the jar. */
  lemma {:induction false} CorrectRowFound(cat: Rows, jar: string)
    ensures var r := CorrectRow(cat, jar);
      && (r.Some? ==> exists i :: 0 <= i < |cat| && cat[i].0 == r.value && jar in cat[i].1
                        && forall k :: 0 <= k < i ==> jar !in cat[k].1)
      && (r.None? <==> forall i :: 0 <= i < |cat| ==> jar !in cat[i].1)
  {
    if cat != [] && jar !in cat[0].1 {
      CorrectRowFound(cat[1..], jar);
      assert forall i :: 1 <= i < |cat| ==> cat[i] == cat[1..][i - 1];
      if CorrectRow(cat, jar).Some? {
        var i :| 0 <= i < |cat[1..]| && cat[1..][i].0 == CorrectRow(cat, jar).value && jar in cat[1..][i].1
          && forall k :: 0 <= k < i ==> jar !in cat[1..][k].1;
        assert cat[i + 1] == cat[1..][i];
        assert forall k :: 0 <= k < i + 1 ==> jar !in cat[k].1 by {
          forall k | 0 <= k < i + 1 ensures jar !in cat[k].1 {
            if k > 0 {
              assert cat[k] == cat[1..][k - 1];
            }
          }
        }
      }
    }
  }

  /** Row keys are distinct (as in a dictionary) and no jar is listed in two rows. */
  predicate WellFormed(cat: Rows)
  {
    forall i, j :: 0 <= i < j < |cat| ==>
      cat[i].0 != cat[j].0 && forall x :: x in cat[i].1 ==> x !in cat[j].1
  }

  /** Every jar in the catalogue. */
  function JarSet(cat: Rows): set<string>
  {
    if cat == [] then {} else (set x | x in cat[0].1) + JarSet(cat[1..])
  }

  /** `sum(len(jars) for jars in row_jars.values())`. */
  function TotalJars(cat: Rows): (n: nat)
    ensures forall i :: 0 <= i < |cat| ==> |cat[i].1| <= n
  {
    if cat == [] then 0
    else
      var n := |cat[0].1| + TotalJars(cat[1..]);
      assert forall i :: 1 <= i < |cat| ==> cat[i] == cat[1..][i - 1];
      n
  }

  /** The shipped catalogue is well formed: its rows 1 and 2 share no jar. */
  lemma RowJarsWellFormed()
    ensures WellFormed(RowJars)
  {
    var a, b := RowJars[0].1, RowJars[1].1;
    forall x | x in a ensures x !in b {
      assert x[0] == 'H';
    }
  }

  /** In a well-formed catalogue the first row holding a jar is the only one:
      `CorrectRow` finds `row` exactly when `row`'s list holds the jar. */
  lemma {:induction false} CorrectRowSpec(cat: Rows, jar: string, row: int)
    requires WellFormed(cat)
    ensures CorrectRow(cat, jar) == Some(row) <==> JarsOf(cat, row).Some? && jar in JarsOf(cat, row).value
  {
    if cat != [] {
      var rest := cat[1..];
      assert WellFormed(rest) by {
        forall i, j | 0 <= i < j < |rest|
          ensures rest[i].0 != rest[j].0 && forall x :: x in rest[i].1 ==> x !in rest[j].1
        {
          assert rest[i] == cat[i + 1] && rest[j] == cat[j + 1];
        }
      }
      CorrectRowSpec(rest, jar, row);
      if row != cat[0].0 && JarsOf(rest, row).Some? {
        var k :| 0 <= k < |rest| && rest[k] == (row, JarsOf(rest, row).value);
        assert cat[k + 1] == rest[k];
      }
      assert forall i :: 0 <= i < |rest| ==> rest[i].0 != cat[0].0 by {
        forall i | 0 <= i < |rest| ensures rest[i].0 != cat[0].0 {
          assert rest[i] == cat[i + 1];
        }
      }
      assert JarsOf(rest, cat[0].0).None?;
    }
  }

  /** The lookup finds no row exactly for the jars the catalogue does not list. */
  lemma {:induction false} CorrectRowNone(cat: Rows, jar: string)
    ensures CorrectRow(cat, jar).None? <==> jar !in JarSet(cat)
  {
    if cat != [] {
      CorrectRowNone(cat[1..], jar);
    }
  }

  /** A list of jar ids holds at most as many distinct ids as entries. */
  lemma {:induction false} DistinctAtMost(js: seq<string>)
    ensures |set x | x in js| <= |js|
  {
    if js != [] {
      DistinctAtMost(js[1..]);
      assert (set x | x in js) == {js[0]} + (set x | x in js[1..]);
    }
  }

  /** The catalogue lists at most `TotalJars` distinct jars. */
  lemma {:induction false} JarSetSize(cat: Rows)
    ensures |JarSet(cat)| <= TotalJars(cat)
  {
    if cat != [] {
      JarSetSize(cat[1..]);
      DistinctAtMost(cat[0].1);
    }
  }
}
