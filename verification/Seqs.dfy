/** Sequences as the kernel's linked lists and stacks. */
module Seqs {

  predicate NoDup<T(==)>(l: seq<T>) {
    forall i, j :: 0 <= i < j < |l| ==> l[i] != l[j]
  }

  /** The sequence without its entry i. */
  function RemoveAt<T>(l: seq<T>, i: nat): (r: seq<T>)
    requires i < |l|
    ensures |r| == |l| - 1
    ensures forall j :: 0 <= j < |r| ==> r[j] == if j < i then l[j] else l[j + 1]
  {
    l[..i] + l[i + 1..]
  }

  /** Removing one entry of a duplicate-free sequence removes exactly that value. */
  lemma MembersAfterRemove<T>(l: seq<T>, i: nat, x: T)
    requires NoDup(l) && i < |l|
    ensures x in RemoveAt(l, i) <==> x in l && x != l[i]
  {
    if x in l && x != l[i] {
      var k :| 0 <= k < |l| && l[k] == x;
      assert RemoveAt(l, i)[if k < i then k else k - 1] == x;
    }
  }

  lemma SplitAt<T>(l: seq<T>, i: nat)
    requires i <= |l|
    ensures l[..i] + l[i..] == l
  {
  }

  /** A loop that takes entries i, i + 1, … out of l, of which the first `keep` stay. */
  lemma NextRest<T>(l: seq<T>, keep: nat, i: nat)
    requires keep <= i < |l|
    ensures var rest := l[..keep] + l[i..];
      rest[keep] == l[i] && RemoveAt(rest, keep) == l[..keep] + l[i + 1..]
  {
  }

  lemma NoRest<T>(l: seq<T>, keep: nat)
    requires keep <= |l|
    ensures l[..keep] + l[|l|..] == l[..keep]
  {
  }

  /** A prefix of a concatenation. */
  lemma TakeConcat<T>(a: seq<T>, b: seq<T>, k: nat)
    requires k <= |a| + |b|
    ensures (a + b)[..k] == if k <= |a| then a[..k] else a + b[..k - |a|]
  {
  }

  lemma ConcatParts<T>(a: seq<T>, b: seq<T>)
    ensures (a + b)[..|a|] == a && (a + b)[|a|..] == b
  {
  }

  lemma GrowSlice<T>(c: seq<T>, l: seq<T>, keep: nat, i: nat)
    requires keep <= i < |l|
    ensures c + l[keep..i] + [l[i]] == c + l[keep..i + 1]
  {
  }
}
