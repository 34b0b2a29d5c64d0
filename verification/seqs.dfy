/** Duplicate-free sequences and "keep the first occurrence" de-duplication,
    the row-level behaviour of `DataFrame.drop_duplicates()`. */
module Seqs {

  /** No element occurs twice. */
  predicate Distinct<T(==)>(s: seq<T>) {
    forall i, j :: 0 <= i < j < |s| ==> s[i] != s[j]
  }

  /** `i` is the position where `x` occurs in `s` for the first time. */
  predicate IsFirstIndex<T(==)>(s: seq<T>, x: T, i: int) {
    0 <= i < |s| && s[i] == x && x !in s[..i]
  }

  /** The position of the first occurrence of `x` in `s`. */
  function FirstIndex<T(==)>(s: seq<T>, x: T): (i: nat)
    requires x in s
    ensures IsFirstIndex(s, x, i)
  {
    if s[0] == x then 0
    else
      var k := FirstIndex(s[1..], x);
      assert s[1..][..k] == s[1..k + 1];
      1 + k
  }

  /** A first occurrence is unique. */
  lemma FirstIndexUnique<T>(s: seq<T>, x: T, i: int, j: int)
    requires IsFirstIndex(s, x, i) && IsFirstIndex(s, x, j)
    ensures i == j
  {
  }

  /** Appending an element does not move the first occurrence of anything
      already present. */
  lemma FirstIndexAppend<T>(s: seq<T>, x: T, y: T)
    requires y in s
    ensures y in s + [x] && FirstIndex(s + [x], y) == FirstIndex(s, y)
  {
    var i := FirstIndex(s, y);
    assert (s + [x])[..i] == s[..i];
    assert IsFirstIndex(s + [x], y, i);
    FirstIndexUnique(s + [x], y, i, FirstIndex(s + [x], y));
  }

  /** Keeps the first occurrence of every element, in order of first
      occurrence, and drops every later repetition. */
  function DropDuplicates<T(==)>(s: seq<T>): (r: seq<T>)
    ensures Distinct(r)
    ensures forall i :: 0 <= i < |s| ==> s[i] in r
    ensures forall k :: 0 <= k < |r| ==> r[k] in s
    ensures |r| <= |s|
  {
    if |s| == 0 then []
    else
      var d := DropDuplicates(s[..|s| - 1]);
      var x := s[|s| - 1];
      assert s == s[..|s| - 1] + [x];
      if x in d then d else d + [x]
  }

  /** The result lists the elements in the order of their first occurrence in
      the input. Together with the contract of `DropDuplicates` (distinct, same
      elements) this determines the result completely. */
  lemma {:induction false} DropDuplicatesKeepsFirstOrder<T>(s: seq<T>)
    ensures forall a, b :: 0 <= a < b < |DropDuplicates(s)| ==>
              FirstIndex(s, DropDuplicates(s)[a]) < FirstIndex(s, DropDuplicates(s)[b])
  {
    if |s| > 0 {
      var p := s[..|s| - 1];
      var x := s[|s| - 1];
      assert s == p + [x];
      DropDuplicatesKeepsFirstOrder(p);
      var d := DropDuplicates(p);
      var r := DropDuplicates(s);
      assert r == d || r == d + [x];
      forall a, b | 0 <= a < b < |r|
        ensures FirstIndex(s, r[a]) < FirstIndex(s, r[b])
      {
        assert r[a] == d[a] && d[a] in p;
        FirstIndexAppend(p, x, r[a]);
        if b < |d| {
          assert r[b] == d[b] && d[b] in p;
          FirstIndexAppend(p, x, r[b]);
          assert FirstIndex(p, d[a]) < FirstIndex(p, d[b]);
        } else {
          // r[b] is the appended element, which does not occur in p
          assert r[b] == x && x !in p;
          assert IsFirstIndex(s, x, |p|);
          FirstIndexUnique(s, x, |p|, FirstIndex(s, x));
        }
      }
    }
  }

  /** A sequence without repetitions is left unchanged; in particular rows
      that differ in a single field never collapse. */
  lemma {:induction false} DropDuplicatesOfDistinct<T>(s: seq<T>)
    requires Distinct(s)
    ensures DropDuplicates(s) == s
  {
    if |s| > 0 {
      var p := s[..|s| - 1];
      assert Distinct(p);
      DropDuplicatesOfDistinct(p);
      assert s[|s| - 1] !in p;
    }
  }

  /** De-duplication is idempotent. */
  lemma DropDuplicatesIdempotent<T>(s: seq<T>)
    ensures DropDuplicates(DropDuplicates(s)) == DropDuplicates(s)
  {
    DropDuplicatesOfDistinct(DropDuplicates(s));
  }

  /** The parts joined end to end, in order. */
  function Concat<T>(parts: seq<seq<T>>): seq<T> {
    if |parts| == 0 then [] else Concat(parts[..|parts| - 1]) + parts[|parts| - 1]
  }

  /** Parts of one element each join to the list of those elements. */
  lemma {:induction false} ConcatSingles<T>(parts: seq<seq<T>>, heads: seq<T>)
    requires |parts| == |heads| && forall i :: 0 <= i < |parts| ==> parts[i] == [heads[i]]
    ensures Concat(parts) == heads
  {
    if |parts| > 0 {
      var n := |parts|;
      ConcatSingles(parts[..n - 1], heads[..n - 1]);
      assert heads == heads[..n - 1] + [heads[n - 1]];
    }
  }

  /** Empty parts after position `k` add nothing. */
  lemma {:induction false} ConcatEmptyTail<T>(parts: seq<seq<T>>, k: nat)
    requires k <= |parts| && forall i :: k <= i < |parts| ==> parts[i] == []
    ensures Concat(parts) == Concat(parts[..k])
  {
    if k < |parts| {
      var n := |parts|;
      ConcatEmptyTail(parts[..n - 1], k);
      assert parts[..n - 1][..k] == parts[..k];
      assert parts[n - 1] == [];
      assert Concat(parts) == Concat(parts[..n - 1]) + [];
      assert Concat(parts[..n - 1]) + [] == Concat(parts[..n - 1]);
    } else {
      assert parts[..k] == parts;
    }
  }

  /** Parts of one element each, followed by empty parts, join to the list of
      those elements. */
  lemma ConcatHeads<T>(parts: seq<seq<T>>, heads: seq<T>)
    requires |heads| <= |parts|
    requires forall i :: 0 <= i < |heads| ==> parts[i] == [heads[i]]
    requires forall i :: |heads| <= i < |parts| ==> parts[i] == []
    ensures Concat(parts) == heads
  {
    ConcatEmptyTail(parts, |heads|);
    ConcatSingles(parts[..|heads|], heads);
  }

  /** Non-empty parts give at least one element each. */
  lemma {:induction false} ConcatLength<T>(parts: seq<seq<T>>)
    requires forall i :: 0 <= i < |parts| ==> |parts[i]| >= 1
    ensures |Concat(parts)| >= |parts|
  {
    if |parts| > 0 {
      ConcatLength(parts[..|parts| - 1]);
    }
  }

  /** Every element of the joined list comes from one of the parts. */
  lemma {:induction false} ConcatMember<T>(parts: seq<seq<T>>, k: int)
    requires 0 <= k < |Concat(parts)|
    ensures exists i :: 0 <= i < |parts| && Concat(parts)[k] in parts[i]
  {
    var n := |parts|;
    var init := Concat(parts[..n - 1]);
    if k < |init| {
      ConcatMember(parts[..n - 1], k);
      var i :| 0 <= i < n - 1 && init[k] in parts[..n - 1][i];
      assert parts[..n - 1][i] == parts[i];
    } else {
      assert Concat(parts)[k] == parts[n - 1][k - |init|];
    }
  }

  /** Every element of every part occurs in the concatenation. */
  lemma {:induction false} ConcatContains<T>(parts: seq<seq<T>>, i: int, x: T)
    requires 0 <= i < |parts| && x in parts[i]
    ensures x in Concat(parts)
  {
    var n := |parts| - 1;
    if i < n {
      assert parts[..n][i] == parts[i];
      ConcatContains(parts[..n], i, x);
    }
  }

  /** The scan pandas performs: walk the rows once, remembering what has been
      seen, and keep a row only when it has not been seen before. */
  method DropDuplicatesScan<T(==)>(s: seq<T>) returns (r: seq<T>)
    ensures r == DropDuplicates(s)
  {
    r := [];
    var seen: set<T> := {};
    var i := 0;
    while i < |s|
      invariant 0 <= i <= |s|
      invariant r == DropDuplicates(s[..i])
      invariant SeenExactly(seen, s[..i])
    {
      ScanStepAt(s, i, seen);
      if s[i] !in seen {
        r := r + [s[i]];
      }
      seen := seen + {s[i]};
      i := i + 1;
    }
    assert s[..i] == s;
  }

  /** `seen` holds exactly the elements of `p`. */
  predicate SeenExactly<T>(seen: set<T>, p: seq<T>) {
    seen == set x | x in p
  }

  /** Step `i` of the scan keeps both of its invariants. */
  lemma ScanStepAt<T>(s: seq<T>, i: int, seen: set<T>)
    requires 0 <= i < |s| && SeenExactly(seen, s[..i])
    ensures (if s[i] in seen then DropDuplicates(s[..i]) else DropDuplicates(s[..i]) + [s[i]]) == DropDuplicates(s[..i + 1])
    ensures SeenExactly(seen + {s[i]}, s[..i + 1])
  {
    SliceSnoc(s, i);
    ScanStep(s[..i], s[i], seen);
  }

  /** The prefix one longer is the prefix plus the next element. */
  lemma SliceSnoc<T>(s: seq<T>, i: int)
    requires 0 <= i < |s|
    ensures s[..i + 1] == s[..i] + [s[i]]
  {
  }

  /** Appending one element to the input keeps both invariants of the scan. */
  lemma ScanStep<T>(p: seq<T>, x: T, seen: set<T>)
    requires SeenExactly(seen, p)
    ensures (if x in seen then DropDuplicates(p) else DropDuplicates(p) + [x]) == DropDuplicates(p + [x])
    ensures SeenExactly(seen + {x}, p + [x])
  {
    var q := p + [x];
    assert q[..|q| - 1] == p && q[|q| - 1] == x;
    var d := DropDuplicates(p);
    if x in p {
      var j :| 0 <= j < |p| && p[j] == x;
      assert x in d;
    } else {
      assert x !in d;
    }
    SeenStep(seen, p, x);
  }

  /** Seeing one more element adds it to the seen set. */
  lemma SeenStep<T>(seen: set<T>, p: seq<T>, x: T)
    requires SeenExactly(seen, p)
    ensures SeenExactly(seen + {x}, p + [x])
  {
    assert forall y :: y in p + [x] <==> y in p || y == x;
  }
}
