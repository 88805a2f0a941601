/** The read-only views of the event log: Python's `log[-n:]` and `list(reversed(...))`. */
module Views {

  function Min(a: int, b: int): int
  {
    if a <= b then a else b
  }

  /** `s[-n:]` for a positive `n`: the last `min(n, |s|)` elements, in their original order. */
  function Tail<T>(s: seq<T>, n: nat): (r: seq<T>)
    requires n > 0
    ensures |r| == Min(n, |s|)
    ensures s == s[..|s| - |r|] + r
  {
    if |s| <= n then s else s[|s| - n..]
  }

  /** `list(reversed(s))`: element `i` of the result is element `|s| - 1 - i` of `s`. */
  function Reverse<T>(s: seq<T>): (r: seq<T>)
    ensures |r| == |s|
    ensures forall i :: 0 <= i < |s| ==> r[i] == s[|s| - 1 - i]
  {
    if s == [] then [] else Reverse(s[1..]) + [s[0]]
  }

  /** The last `min(n, |s|)` elements, newest first. */
  function NewestFirst<T>(s: seq<T>, n: nat): (r: seq<T>)
    requires n > 0
    ensures |r| == Min(n, |s|)
    ensures forall i :: 0 <= i < |r| ==> r[i] == s[|s| - 1 - i]
  {
    Reverse(Tail(s, n))
  }

  /** Reversing twice restores the original order. */
  lemma {:induction false} ReverseReverse<T>(s: seq<T>)
    ensures Reverse(Reverse(s)) == s
  {
    var r := Reverse(Reverse(s));
    assert |r| == |s|;
    forall i | 0 <= i < |s| ensures r[i] == s[i] {
      assert r[i] == Reverse(s)[|s| - 1 - i];
    }
  }

  /** The newest-first page shows, reversed, exactly what the tail view shows. */
  lemma {:induction false} NewestFirstIsReversedTail<T>(s: seq<T>, n: nat)
    requires n > 0
    ensures Reverse(NewestFirst(s, n)) == Tail(s, n)
  {
    ReverseReverse(Tail(s, n));
  }
}
