/** Values shared by every orchestrator: the evidence envelope's common fields,
    cancellable contexts, and the few sequence facts the proofs need. */
module Basics {
  datatype Option<+T> = None | Some(value: T)

  /** A Go slice, which distinguishes nil from an empty array. */
  datatype Slice<+T> = Nil | Items(items: seq<T>)

  datatype Outcome = Succeeded | Failed | Cancelled

  datatype Platform = Platform(os: string, arch: string)

  datatype Source = Source(backend: string, native: bool, reason: string)

  datatype Family = IPv4 | IPv6

  /** Diagnostic text, kept only as far as the validators look at it. */
  datatype Detail = NoText | BlankText | Text

  /** What `ctx.Err()` returns at one moment. */
  datatype ContextError = Live | Canceled | DeadlineExceeded

  /** Once a context has ended it keeps the error it ended with. */
  ghost predicate Sticky(context: nat -> ContextError) {
    forall i: nat, j: nat :: i <= j && context(i) != Live ==> context(j) == context(i)
  }

  lemma StaysEnded(context: nat -> ContextError, i: nat, j: nat)
    requires Sticky(context) && i <= j
    ensures context(i) != Live ==> context(j) == context(i)
  {
  }

  predicate Distinct<T(==)>(s: seq<T>) {
    forall i, j :: 0 <= i < j < |s| ==> s[i] != s[j]
  }

  function Elements<T>(s: seq<T>): set<T> {
    set x | x in s
  }

  function Min(a: int, b: int): int { if a <= b then a else b }

  function Max(a: int, b: int): int { if a <= b then b else a }

  predicate EndsWith(s: string, c: char) { s != "" && s[|s| - 1] == c }

  /** The first position of `c`, or the length. */
  function IndexOf(s: string, c: char): (i: nat)
    ensures i <= |s| && (i < |s| ==> s[i] == c)
    ensures forall k :: 0 <= k < i ==> s[k] != c
  {
    if s == "" || s[0] == c then 0 else 1 + IndexOf(s[1..], c)
  }

  function Sum(s: seq<nat>): nat {
    if s == [] then 0 else Sum(s[..|s| - 1]) + s[|s| - 1]
  }

  lemma {:induction false} SumUpdate(s: seq<nat>, i: nat, v: nat)
    requires i < |s|
    ensures Sum(s[i := v]) == Sum(s) - s[i] + v
  {
    var last := |s| - 1;
    if i == last {
      assert s[i := v][..last] == s[..last];
    } else {
      SumUpdate(s[..last], i, v);
      assert s[i := v][..last] == s[..last][i := v];
    }
  }

  lemma {:induction false} SumBounded(s: seq<nat>, bound: nat)
    requires forall i :: 0 <= i < |s| ==> s[i] <= bound
    ensures Sum(s) <= |s| * bound
  {
    if s != [] {
      SumBounded(s[..|s| - 1], bound);
    }
  }

  lemma {:induction false} IndexSetSize(indices: set<int>, n: nat)
    requires forall w :: w in indices ==> 0 <= w < n
    ensures |indices| <= n
  {
    if n > 0 {
      IndexSetSize(indices - {n - 1}, n - 1);
    } else {
      assert forall w :: w !in indices;
    }
  }

  /** Pigeonhole: distinct members of a finite set are no more than the set. */
  lemma {:induction false} DistinctFits<T>(s: seq<T>, all: set<T>)
    requires Distinct(s) && Elements(s) <= all
    ensures |s| <= |all|
  {
    if s != [] {
      var last := |s| - 1;
      assert s[last] in Elements(s);
      forall x | x in Elements(s[..last]) ensures x in all - {s[last]} {
        var k :| 0 <= k < last && s[k] == x;
        assert s[k] in Elements(s);
      }
      DistinctFits(s[..last], all - {s[last]});
    }
  }
}
