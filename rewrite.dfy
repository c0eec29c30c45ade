/** lib/server.ts:164-180, `rewriteCode`: sort the replacements by descending
    start offset, then splice them into the code from the last to the first,
    so that every offset still refers to the original text. */
module Rewrite {
  import opened Js
  import opened Util

  /** The half-open character range [from, to) of the original code. */
  datatype Range = Range(from: int, to: int)

  /** ICodeReplacement: the text to put in place of `range`. */
  datatype Replacement = Replacement(replacement: string, range: Range)

  /** One step of the loop: `before` + replacement + `after`, cut with JavaScript's
      clamping `substring`. */
  function Splice(code: string, r: Replacement): (spliced: string)
    ensures 0 <= r.range.from <= r.range.to <= |code| ==>
      spliced == code[..r.range.from] + r.replacement + code[r.range.to..]
  {
    Substring(code, 0, r.range.from) + r.replacement + SubstringFrom(code, r.range.to)
  }

  /** The loop of rewriteCode: splice the replacements one after the other, in list order. */
  function FoldApply(code: string, rs: seq<Replacement>): (result: string)
    ensures |rs| == 1 ==> result == Splice(code, rs[0])
    decreases |rs|
  {
    if |rs| == 0 then code else FoldApply(Splice(code, rs[0]), rs[1..])
  }

  predicate SortedDesc(rs: seq<Replacement>)
  {
    forall i, j :: 0 <= i < j < |rs| ==> rs[i].range.from >= rs[j].range.from
  }

  /** Inserts `r` before the first element whose start is not greater than its own. */
  function Insert(r: Replacement, ds: seq<Replacement>): (res: seq<Replacement>)
    ensures multiset(res) == multiset(ds) + multiset{r}
  {
    if |ds| == 0 then [r]
    else if r.range.from >= ds[0].range.from then [r] + ds
    else
      assert ds == [ds[0]] + ds[1..];
      [ds[0]] + Insert(r, ds[1..])
  }

  /** Inserting into a sorted list keeps it sorted. */
  lemma {:induction false} InsertSorted(r: Replacement, ds: seq<Replacement>)
    requires SortedDesc(ds)
    ensures SortedDesc(Insert(r, ds))
  {
    if |ds| > 0 && r.range.from < ds[0].range.from {
      var tail := Insert(r, ds[1..]);
      InsertSorted(r, ds[1..]);
      forall j | 0 <= j < |tail| ensures tail[j].range.from <= ds[0].range.from {
        assert tail[j] in multiset(tail);
        if tail[j] != r {
          assert tail[j] in multiset(ds[1..]);
          var k :| 0 <= k < |ds[1..]| && ds[1..][k] == tail[j];
          assert ds[k + 1] == tail[j];
        }
      }
    }
  }

  /** `replacements.slice().sort((a, b) => b.range.from - a.range.from)`: a
      stable sort by descending start (an element placed in front of every
      later element with the same start, so ties keep their input order). */
  function SortByFromDescending(rs: seq<Replacement>): (sorted: seq<Replacement>)
    ensures multiset(sorted) == multiset(rs)
    ensures SortedDesc(sorted)
  {
    if |rs| == 0 then []
    else
      assert rs == [rs[0]] + rs[1..];
      InsertSorted(rs[0], SortByFromDescending(rs[1..]));
      Insert(rs[0], SortByFromDescending(rs[1..]))
  }

  /** What rewriteCode returns. */
  function RewriteResult(code: string, rs: seq<Replacement>): (result: string)
    ensures rs == [] ==> result == code
  {
    FoldApply(code, SortByFromDescending(rs))
  }

  /** Two replacements that neither overlap nor start at the same offset. */
  predicate Separate(a: Replacement, b: Replacement)
  {
    (a.range.to <= b.range.from && a.range.from < b.range.from) ||
    (b.range.to <= a.range.from && b.range.from < a.range.from)
  }

  /** No replacement is listed twice and any two different ones are separate. */
  predicate Disjoint(rs: seq<Replacement>)
  {
    NoDuplicates(rs) && forall x, y :: x in rs && y in rs && x != y ==> Separate(x, y)
  }

  /** The input rewriteCode is meant for: separate ranges with 0 <= from <= to <= |code|. */
  predicate WellFormed(code: string, rs: seq<Replacement>)
  {
    Disjoint(rs) && forall r :: r in rs ==> 0 <= r.range.from <= r.range.to <= |code|
  }

  /** Every range lies in [0, n), and each one ends at or before the start of
      the one in front of it. */
  predicate ChainedBelow(ds: seq<Replacement>, n: int)
    decreases |ds|
  {
    |ds| == 0 ||
    (0 <= ds[0].range.from <= ds[0].range.to <= n && ChainedBelow(ds[1..], ds[0].range.from))
  }

  /** The reference meaning of a batch splice: the original code with each
      range replaced by its text, every range indexing the original code. */
  function SplicedDesc(code: string, ds: seq<Replacement>): string
    requires ChainedBelow(ds, |code|)
    decreases |ds|
  {
    if |ds| == 0 then code
    else SplicedDesc(code[..ds[0].range.from], ds[1..]) + ds[0].replacement + code[ds[0].range.to..]
  }

  /** The change in length a list of replacements makes. */
  function Delta(ds: seq<Replacement>): int
  {
    if |ds| == 0 then 0
    else |ds[0].replacement| - (ds[0].range.to - ds[0].range.from) + Delta(ds[1..])
  }

  /** The result is as long as the code plus each replacement's text, minus each range. */
  lemma {:induction false} SplicedLength(code: string, ds: seq<Replacement>)
    requires ChainedBelow(ds, |code|)
    decreases |ds|
    ensures |SplicedDesc(code, ds)| == |code| + Delta(ds)
  {
    if |ds| > 0 {
      SplicedLength(code[..ds[0].range.from], ds[1..]);
    }
  }

  /** Splicing ranges that all lie inside a prefix leaves what follows the prefix alone. */
  lemma {:induction false} FoldApplyLocal(p: string, t: string, ds: seq<Replacement>)
    requires ChainedBelow(ds, |p|)
    decreases |ds|
    ensures FoldApply(p + t, ds) == FoldApply(p, ds) + t
  {
    if |ds| > 0 {
      var d := ds[0];
      var f, e := d.range.from, d.range.to;
      assert (p + t)[..f] == p[..f];
      assert (p + t)[e..] == p[e..] + t;
      var s := Splice(p, d);
      assert Splice(p + t, d) == s + t;
      assert ChainedBelow(ds[1..], |s|);
      FoldApplyLocal(s, t, ds[1..]);
    }
  }

  /** Splicing from the last range to the first is the batch splice. */
  lemma {:induction false} FoldApplyIsSpliced(code: string, ds: seq<Replacement>)
    requires ChainedBelow(ds, |code|)
    decreases |ds|
    ensures FoldApply(code, ds) == SplicedDesc(code, ds)
  {
    if |ds| > 0 {
      var d := ds[0];
      var f, e := d.range.from, d.range.to;
      var p, t := code[..f], d.replacement + code[e..];
      assert Splice(code, d) == p + t;
      FoldApplyLocal(p, t, ds[1..]);
      FoldApplyIsSpliced(p, ds[1..]);
    }
  }

  /** Sorted, separate, in-bounds ranges are chained. */
  lemma {:induction false} SortedIsChained(ds: seq<Replacement>, n: int)
    requires SortedDesc(ds) && Disjoint(ds)
    requires forall r :: r in ds ==> 0 <= r.range.from <= r.range.to <= n
    ensures ChainedBelow(ds, n)
  {
    if |ds| > 0 {
      var rest := ds[1..];
      forall x | x in rest ensures 0 <= x.range.from <= x.range.to <= ds[0].range.from {
        var k :| 0 <= k < |rest| && rest[k] == x;
        assert ds[k + 1] == x && ds[0] != x;
        assert x in ds && ds[0] in ds;
        assert Separate(x, ds[0]);
        assert x.range.from <= ds[0].range.from;
      }
      assert NoDuplicates(rest) by {
        assert forall i, j :: 0 <= i < j < |rest| ==> rest[i] == ds[i + 1] && rest[j] == ds[j + 1];
      }
      SortedIsChained(rest, ds[0].range.from);
    }
  }

  lemma NoDuplicatesCons(a: seq<Replacement>)
    requires |a| > 0
    ensures NoDuplicates(a) <==> NoDuplicates(a[1..]) && a[0] !in a[1..]
  {
    var rest := a[1..];
    assert forall i :: 0 <= i < |rest| ==> rest[i] == a[i + 1];
    if NoDuplicates(rest) && a[0] !in rest {
      forall i, j | 0 <= i < j < |a| ensures a[i] != a[j] {
        assert a[j] == rest[j - 1];
      }
    }
  }

  /** NoDuplicates depends only on the multiset of the elements. */
  lemma {:induction false} NoDuplicatesAsMultiset(a: seq<Replacement>)
    ensures NoDuplicates(a) <==> forall x :: x in multiset(a) ==> multiset(a)[x] == 1
  {
    if |a| > 0 {
      var rest := a[1..];
      assert a == [a[0]] + rest;
      var m, mr := multiset(a), multiset(rest);
      assert m == multiset{a[0]} + mr;
      NoDuplicatesAsMultiset(rest);
      NoDuplicatesCons(a);
      if NoDuplicates(a) {
        assert mr[a[0]] == 0;
        forall x | x in m ensures m[x] == 1 {
          if x != a[0] {
            assert x in mr;
          }
        }
      }
      if forall x :: x in m ==> m[x] == 1 {
        assert m[a[0]] == 1 && mr[a[0]] == 0;
        forall x | x in mr ensures mr[x] == 1 {
          assert x in m;
        }
      }
    }
  }

  /** A reordering of a disjoint list is disjoint. */
  lemma DisjointPermutation(a: seq<Replacement>, b: seq<Replacement>)
    requires Disjoint(a) && multiset(a) == multiset(b)
    ensures Disjoint(b)
  {
    NoDuplicatesAsMultiset(a);
    NoDuplicatesAsMultiset(b);
    assert forall x :: x in b <==> x in multiset(b);
    assert forall x :: x in a <==> x in multiset(a);
  }

  lemma MultisetOfTail(a: seq<Replacement>, b: seq<Replacement>)
    requires |a| > 0 && |b| > 0 && a[0] == b[0] && multiset(a) == multiset(b)
    ensures multiset(a[1..]) == multiset(b[1..])
  {
    assert a == [a[0]] + a[1..] && b == [b[0]] + b[1..];
    assert multiset(a) == multiset{a[0]} + multiset(a[1..]);
    assert multiset(b) == multiset{b[0]} + multiset(b[1..]);
    assert multiset(a[1..]) == multiset(a) - multiset{a[0]};
    assert multiset(b[1..]) == multiset(b) - multiset{b[0]};
  }

  /** Two sorted orderings of the same disjoint ranges are the same list. */
  lemma {:induction false} SortedDisjointUnique(a: seq<Replacement>, b: seq<Replacement>)
    requires SortedDesc(a) && SortedDesc(b) && Disjoint(a) && multiset(a) == multiset(b)
    ensures a == b
  {
    DisjointPermutation(a, b);
    if |a| > 0 {
      assert a[0] in multiset(b) && b[0] in multiset(a);
      assert a[0].range.from <= b[0].range.from by {
        var k :| 0 <= k < |b| && b[k] == a[0];
      }
      assert b[0].range.from <= a[0].range.from by {
        var k :| 0 <= k < |a| && a[k] == b[0];
      }
      assert !Separate(a[0], b[0]);
      assert a[0] == b[0];
      MultisetOfTail(a, b);
      assert NoDuplicates(a[1..]) by {
        assert forall i :: 0 <= i < |a| - 1 ==> a[1..][i] == a[i + 1];
      }
      SortedDisjointUnique(a[1..], b[1..]);
    }
  }

  /** rewriteCode on well-formed input is the batch splice of the sorted replacements. */
  lemma RewriteIsSplice(code: string, rs: seq<Replacement>)
    requires WellFormed(code, rs)
    ensures ChainedBelow(SortByFromDescending(rs), |code|)
    ensures RewriteResult(code, rs) == SplicedDesc(code, SortByFromDescending(rs))
  {
    var sorted := SortByFromDescending(rs);
    DisjointPermutation(rs, sorted);
    assert forall r :: r in sorted ==> r in multiset(rs);
    SortedIsChained(sorted, |code|);
    FoldApplyIsSpliced(code, sorted);
  }

  /** On well-formed input the order of the replacement list does not matter. */
  lemma RewriteIsOrderIndependent(code: string, rs1: seq<Replacement>, rs2: seq<Replacement>)
    requires WellFormed(code, rs1) && multiset(rs1) == multiset(rs2)
    ensures RewriteResult(code, rs1) == RewriteResult(code, rs2)
  {
    var s1, s2 := SortByFromDescending(rs1), SortByFromDescending(rs2);
    DisjointPermutation(rs1, s1);
    SortedDisjointUnique(s1, s2);
  }

  /** An empty range at offset 0 puts the text in front of the code. */
  lemma SpliceAtStart(code: string, r: Replacement)
    requires r.range == Range(0, 0)
    ensures Splice(code, r) == r.replacement + code
  {
    assert Substring(code, 0, 0) == [];
    assert SubstringFrom(code, 0) == code;
  }

  /** Two empty ranges at the same offset, listed in the order `first`,
      `second`, come out as second + first + code. */
  lemma InsertionsAtStart(code: string, first: Replacement, second: Replacement)
    requires first.range == Range(0, 0) && second.range == Range(0, 0)
    ensures RewriteResult(code, [first, second]) == second.replacement + first.replacement + code
  {
    assert [first, second][1..] == [second];
    assert SortByFromDescending([second]) == [second];
    assert SortByFromDescending([first, second]) == [first, second];
    SpliceAtStart(code, first);
    SpliceAtStart(first.replacement + code, second);
    var once := Splice(code, first);
    assert FoldApply(code, [first, second]) == FoldApply(once, [second]);
    assert FoldApply(once, [second]) == FoldApply(Splice(once, second), []);
  }

  /** Why separate ranges must also start at different offsets: two insertions
      at the same offset come out in an order that depends on the input order.
      Listed as "a", "b" they give "bax"; InsertionsAtSameOffsetSwapped lists
      them the other way round. */
  lemma InsertionsAtSameOffsetDependOnOrder()
    ensures RewriteResult("x", [Replacement("a", Range(0, 0)), Replacement("b", Range(0, 0))]) == "bax"
  {
    InsertionsAtStart("x", Replacement("a", Range(0, 0)), Replacement("b", Range(0, 0)));
  }

  /** The same two insertions listed as "b", "a" give "abx". */
  lemma InsertionsAtSameOffsetSwapped()
    ensures RewriteResult("x", [Replacement("b", Range(0, 0)), Replacement("a", Range(0, 0))]) == "abx"
  {
    InsertionsAtStart("x", Replacement("b", Range(0, 0)), Replacement("a", Range(0, 0)));
  }

  /** Why separate ranges must start at different offsets even when they do
      not overlap: an empty range listed before a non-empty one at the same
      offset is inserted first and then overwritten by the second splice, so
      its text is lost and the character the second range covers survives. */
  lemma EmptyRangeBeforeSameStartIsLost()
    ensures RewriteResult("xyz", [Replacement("A", Range(1, 1)), Replacement("B", Range(1, 2))]) == "xByz"
  {
    var ins, rep := Replacement("A", Range(1, 1)), Replacement("B", Range(1, 2));
    assert [ins, rep][1..] == [rep];
    assert SortByFromDescending([rep]) == [rep];
    assert SortByFromDescending([ins, rep]) == [ins, rep];
    var once := Splice("xyz", ins);
    assert once == "xAyz" by {
      assert "xyz"[..1] == "x" && "xyz"[1..] == "yz";
    }
    assert Splice(once, rep) == "xByz" by {
      assert once[..1] == "x" && once[2..] == "yz";
    }
    assert FoldApply("xyz", [ins, rep]) == FoldApply(once, [rep]);
    assert FoldApply(once, [rep]) == FoldApply(Splice(once, rep), []);
  }

  /** The input of EmptyRangeBeforeSameStartIsLost is outside what
      RewriteIsSplice covers: its two ranges start at the same offset. */
  lemma SameStartIsNotWellFormed()
    ensures !WellFormed("xyz", [Replacement("A", Range(1, 1)), Replacement("B", Range(1, 2))])
  {
    var ins, rep := Replacement("A", Range(1, 1)), Replacement("B", Range(1, 2));
    assert !Separate(ins, rep);
    assert ins in [ins, rep] && rep in [ins, rep];
  }

  /** rewriteCode: sort a copy of the replacements last to first, then splice
      each into the current result. */
  method RewriteCode(code: string, replacements: seq<Replacement>) returns (result: string)
    ensures result == RewriteResult(code, replacements)
    ensures replacements == [] ==> result == code
    ensures WellFormed(code, replacements) ==>
      ChainedBelow(SortByFromDescending(replacements), |code|) &&
      result == SplicedDesc(code, SortByFromDescending(replacements))
  {
    var lastToFirst := SortByFromDescending(replacements);
    result := code;
    var i := 0;
    while i < |lastToFirst|
      invariant 0 <= i <= |lastToFirst|
      invariant FoldApply(result, lastToFirst[i..]) == FoldApply(code, lastToFirst)
    {
      var r := lastToFirst[i];
      var before := Substring(result, 0, r.range.from);
      var after := SubstringFrom(result, r.range.to);
      assert lastToFirst[i..][1..] == lastToFirst[i + 1..];
      result := before + r.replacement + after;
      i := i + 1;
    }
    if WellFormed(code, replacements) {
      RewriteIsSplice(code, replacements);
    }
  }
}
