/** Python's `str.split(",")` on a serial line, and its inverse `",".join(...)`. */
module Strings {

  const Comma: char := ','

  /** `s.split(",")`: the comma-separated fields of `s`, never an empty list
      (an empty string has the one field ""), and no field holds a comma. */
  function Split(s: string): (fields: seq<string>)
    ensures |fields| >= 1
    ensures forall i :: 0 <= i < |fields| ==> Comma !in fields[i]
    decreases |s|
  {
    if s == [] then [""]
    else
      var rest := Split(s[1..]);
      if s[0] == Comma then [""] + rest
      else [[s[0]] + rest[0]] + rest[1..]
  }

  /** `",".join(fields)`. */
  function Join(fields: seq<string>): string
    requires |fields| >= 1
    decreases |fields|
  {
    if |fields| == 1 then fields[0] else fields[0] + [Comma] + Join(fields[1..])
  }

  /** Joining the fields back together gives the line that was split. */
  lemma {:induction false} JoinSplit(s: string)
    ensures Join(Split(s)) == s
    decreases |s|
  {
    if s != [] {
      var rest := Split(s[1..]);
      JoinSplit(s[1..]);
      if s[0] != Comma && |rest| > 1 {
        assert rest == [rest[0]] + rest[1..];
        assert Join(rest) == rest[0] + [Comma] + Join(rest[1..]);
      }
    }
  }

  /** Splitting a join of comma-free fields gives back those fields. */
  lemma {:induction false} SplitJoin(fields: seq<string>)
    requires |fields| >= 1
    requires forall i :: 0 <= i < |fields| ==> Comma !in fields[i]
    ensures Split(Join(fields)) == fields
    decreases |fields|
  {
    if |fields| == 1 {
      SplitCommaFree(fields[0]);
    } else {
      SplitJoin(fields[1..]);
      SplitAppend(fields[0], Join(fields[1..]));
      SplitCommaFree(fields[0]);
      assert fields == [fields[0]] + fields[1..];
    }
  }

  /** A string without commas is a single field. */
  lemma {:induction false} SplitCommaFree(s: string)
    requires Comma !in s
    ensures Split(s) == [s]
    decreases |s|
  {
    if s != [] {
      assert s[0] != Comma;
      assert Comma !in s[1..];
      SplitCommaFree(s[1..]);
      assert [s[0]] + s[1..] == s;
    }
  }

  /** A comma between `a` and `b` separates the fields of `a` from those of `b`. */
  lemma {:induction false} SplitAppend(a: string, b: string)
    ensures Split(a + [Comma] + b) == Split(a) + Split(b)
    decreases |a|
  {
    var s := a + [Comma] + b;
    if a == [] {
      assert s[1..] == b;
    } else {
      assert s[1..] == a[1..] + [Comma] + b;
      SplitAppend(a[1..], b);
    }
  }
}
