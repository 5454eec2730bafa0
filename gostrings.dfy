/**
 * The two library routines of Go's `strings` package that the registry's
 * naming helpers are built from, `strings.Join` and `strings.Index`, written
 * out so that the helpers get exact string-level contracts, together with
 * independent reference definitions they are proved against.
 */
module GoStrings {

  /** Sum of the lengths of the elements. */
  function TotalLength(elems: seq<string>): nat
  {
    if elems == [] then 0 else |elems[0]| + TotalLength(elems[1..])
  }

  /** Reference definition: the elements one after another, nothing between them. */
  function Flatten(elems: seq<string>): string
  {
    if elems == [] then "" else elems[0] + Flatten(elems[1..])
  }

  /** Reference definition: every element followed by `term`. */
  function Terminated(elems: seq<string>, term: string): string
  {
    if elems == [] then "" else elems[0] + term + Terminated(elems[1..], term)
  }

  /**
   * `strings.Join(elems, sep)`: the elements separated by `sep`; the empty
   * string when there are no elements.
   */
  function Join(elems: seq<string>, sep: string): (r: string)
    ensures elems == [] ==> r == ""
    ensures elems != [] ==> |r| == TotalLength(elems) + (|elems| - 1) * |sep|
  {
    if |elems| == 0 then ""
    else if |elems| == 1 then elems[0]
    else elems[0] + sep + Join(elems[1..], sep)
  }

  /** Joining with the empty separator is plain concatenation. */
  lemma {:induction false} JoinEmptySeparator(elems: seq<string>)
    ensures Join(elems, "") == Flatten(elems)
  {
    if |elems| == 1 {
      assert Flatten(elems[1..]) == "";
    } else if |elems| > 1 {
      JoinEmptySeparator(elems[1..]);
    }
  }

  /** A non-empty join followed by one more separator terminates every element. */
  lemma {:induction false} JoinThenSeparator(elems: seq<string>, sep: string)
    requires elems != []
    ensures Join(elems, sep) + sep == Terminated(elems, sep)
  {
    if |elems| == 1 {
      assert Terminated(elems[1..], sep) == "";
    } else {
      JoinThenSeparator(elems[1..], sep);
    }
  }

  lemma {:induction false} FlattenLength(elems: seq<string>)
    ensures |Flatten(elems)| == TotalLength(elems)
  {
    if elems != [] {
      FlattenLength(elems[1..]);
    }
  }

  lemma {:induction false} TerminatedLength(elems: seq<string>, term: string)
    ensures |Terminated(elems, term)| == TotalLength(elems) + |elems| * |term|
  {
    if elems != [] {
      TerminatedLength(elems[1..], term);
      assert |elems| * |term| == |term| + (|elems| - 1) * |term|;
    }
  }

  /** Appending one element to the list appends it, terminated, to the result. */
  lemma {:induction false} TerminatedSnoc(elems: seq<string>, last: string, term: string)
    ensures Terminated(elems + [last], term) == Terminated(elems, term) + last + term
  {
    if elems == [] {
      assert [last][1..] == [];
    } else {
      assert (elems + [last])[1..] == elems[1..] + [last];
      TerminatedSnoc(elems[1..], last, term);
    }
  }

  /** `sub` occurs in `s` starting at position `at`. */
  predicate OccursAt(s: string, sub: string, at: int)
  {
    0 <= at && at + |sub| <= |s| && s[at..at + |sub|] == sub
  }

  /** The first occurrence of `sub` in `s` at or after position `from`, or -1. */
  function IndexFrom(s: string, sub: string, from: nat): (r: int)
    ensures r == -1 || (from <= r && OccursAt(s, sub, r))
    ensures r == -1 ==> forall j :: from <= j ==> !OccursAt(s, sub, j)
    ensures r != -1 ==> forall j :: from <= j < r ==> !OccursAt(s, sub, j)
    decreases |s| - from
  {
    if from + |sub| > |s| then -1
    else if s[from..from + |sub|] == sub then from
    else IndexFrom(s, sub, from + 1)
  }

  /** `strings.Index(s, sub)`: the first position at which `sub` occurs in `s`, or -1. */
  function Index(s: string, sub: string): (r: int)
    ensures r == -1 <==> forall j :: 0 <= j ==> !OccursAt(s, sub, j)
    ensures r != -1 ==> OccursAt(s, sub, r) && forall j :: 0 <= j < r ==> !OccursAt(s, sub, j)
  {
    IndexFrom(s, sub, 0)
  }

  /** `strings.Index(s, sub) == 0` exactly when `s` starts with `sub`. */
  lemma IndexZeroIsPrefix(s: string, sub: string)
    ensures Index(s, sub) == 0 <==> sub <= s
  {
    if sub <= s {
      assert OccursAt(s, sub, 0);
    }
  }
}
