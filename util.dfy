/** lib/util.ts: the success-xor-error result shape and `dedupeStringArray`. */
module Util {

  /** TMaybeError<T, U>: either the success fields with `error: undefined`, or
      only the error. */
  datatype MaybeError<+T, +E> = Ok(value: T) | Err(error: E)

  predicate NoDuplicates<T(==)>(s: seq<T>)
  {
    forall i, j :: 0 <= i < j < |s| ==> s[i] != s[j]
  }

  /** What `dedupeStringArray` computes after looking at every element of `a`
      from left to right: an element joins the result unless it is already in it. */
  function Dedupe(a: seq<string>): (r: seq<string>)
    ensures NoDuplicates(r)
    ensures forall x :: x in r <==> x in a
  {
    if |a| == 0 then []
    else
      var r := Dedupe(a[..|a| - 1]);
      var x := a[|a| - 1];
      assert forall y :: y in a <==> y in a[..|a| - 1] || y == x by {
        assert a == a[..|a| - 1] + [x];
      }
      if x in r then r else r + [x]
  }

  /** dedupeStringArray: one pass over `array`, appending each element that the
      result does not yet contain. */
  method DedupeStringArray(items: seq<string>) returns (result: seq<string>)
    ensures result == Dedupe(items)
    ensures NoDuplicates(result)
    ensures forall x :: x in result <==> x in items
  {
    result := [];
    var i := 0;
    while i < |items|
      invariant 0 <= i <= |items|
      invariant result == Dedupe(items[..i])
    {
      var item := items[i];
      assert items[..i + 1][..i] == items[..i];
      if item !in result {
        result := result + [item];
      }
      i := i + 1;
    }
    assert items[..|items|] == items;
  }

  /** The index of the first occurrence of `x` in `a`. */
  function FirstIndex(a: seq<string>, x: string): (i: nat)
    requires x in a
    ensures i < |a| && a[i] == x && x !in a[..i]
  {
    if a[0] == x then 0
    else
      assert x in a[1..] by { assert a == [a[0]] + a[1..]; }
      var j := FirstIndex(a[1..], x);
      assert a[..j + 1] == [a[0]] + a[1..][..j];
      j + 1
  }

  /** An index holding `x` with no earlier `x` is the first index of `x`. */
  lemma FirstIndexUnique(a: seq<string>, x: string, i: nat)
    requires i < |a| && a[i] == x && x !in a[..i]
    ensures FirstIndex(a, x) == i
  {
    var j := FirstIndex(a, x);
    assert forall k :: 0 <= k < i ==> a[..i][k] == a[k];
    assert forall k :: 0 <= k < j ==> a[..j][k] == a[k];
  }

  /** The first occurrence of `x` in a prefix of `a` is its first occurrence in `a`. */
  lemma FirstIndexInPrefix(a: seq<string>, n: nat, x: string)
    requires n <= |a| && x in a[..n]
    ensures FirstIndex(a[..n], x) == FirstIndex(a, x)
  {
    var i := FirstIndex(a[..n], x);
    assert a[..n][..i] == a[..i];
    FirstIndexUnique(a, x, i);
  }

  /** The output keeps the order of first occurrences: the first indices in
      the input of its elements strictly increase. With FirstIndex's own
      contract this makes the output the subsequence of the input picked at
      each element's first occurrence. */
  lemma {:induction false} DedupeKeepsFirstOccurrenceOrder(a: seq<string>)
    ensures forall k, l :: 0 <= k < l < |Dedupe(a)| ==> FirstIndex(a, Dedupe(a)[k]) < FirstIndex(a, Dedupe(a)[l])
  {
    if |a| > 0 {
      var n := |a| - 1;
      var a', x := a[..n], a[n];
      var r', r := Dedupe(a'), Dedupe(a);
      DedupeKeepsFirstOccurrenceOrder(a');
      forall y | y in r'
        ensures FirstIndex(a, y) == FirstIndex(a', y)
      {
        FirstIndexInPrefix(a, n, y);
      }
      if x in r' {
        forall k, l | 0 <= k < l < |r| ensures FirstIndex(a, r[k]) < FirstIndex(a, r[l]) {
          assert r'[k] in r' && r'[l] in r';
        }
      } else {
        assert r == r' + [x];
        FirstIndexUnique(a, x, n);
        forall k, l | 0 <= k < l < |r| ensures FirstIndex(a, r[k]) < FirstIndex(a, r[l]) {
          assert r[k] == r'[k] && r'[k] in r';
          if l < |r'| {
            assert r[l] == r'[l] && r'[l] in r';
          }
        }
      }
    }
  }

  lemma NoDuplicatesSnoc(a: seq<string>, x: string)
    ensures NoDuplicates(a + [x]) <==> NoDuplicates(a) && x !in a
  {
    var b := a + [x];
    assert forall k :: 0 <= k < |a| ==> b[k] == a[k];
    if NoDuplicates(b) {
      assert forall k :: 0 <= k < |a| ==> b[k] != b[|a|];
    }
    if NoDuplicates(a) && x !in a {
      forall i, j | 0 <= i < j < |b| ensures b[i] != b[j] {
        if j < |a| {
          assert b[i] == a[i] && b[j] == a[j];
        } else {
          assert b[i] == a[i] && b[j] == x;
        }
      }
    }
  }

  /** Deduplication never lengthens, keeps the length exactly when the input
      has no duplicates, and then returns the input itself. */
  lemma {:induction false} DedupeLength(a: seq<string>)
    ensures |Dedupe(a)| <= |a|
    ensures |Dedupe(a)| == |a| <==> NoDuplicates(a)
    ensures NoDuplicates(a) ==> Dedupe(a) == a
  {
    if |a| > 0 {
      var n := |a| - 1;
      var a', x := a[..n], a[n];
      DedupeLength(a');
      assert a == a' + [x];
      NoDuplicatesSnoc(a', x);
    }
  }

  /** Deduplicating twice is the same as deduplicating once. */
  lemma DedupeIdempotent(a: seq<string>)
    ensures Dedupe(Dedupe(a)) == Dedupe(a)
    ensures Dedupe([]) == []
  {
    DedupeLength(Dedupe(a));
  }
}
