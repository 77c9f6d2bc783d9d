/** Sequence helpers shared by the server roster and the client's user list. */
module Seqs {

  /** No value occurs twice. */
  predicate NoDup<T(==)>(s: seq<T>) {
    forall i, j :: 0 <= i < j < |s| ==> s[i] != s[j]
  }

  /** Position of the first occurrence of `x`. */
  function IndexOf<T(==)>(s: seq<T>, x: T): (k: nat)
    requires x in s
    ensures k < |s| && s[k] == x
    ensures x !in s[..k]
  {
    if s[0] == x then 0
    else
      var k' := IndexOf(s[1..], x);
      assert s[..k' + 1] == [s[0]] + s[1..][..k'];
      k' + 1
  }

  /** Past the head, the first occurrence sits one further than in the tail. */
  lemma IndexOfTail<T>(s: seq<T>, x: T)
    requires x in s && s[0] != x
    ensures x in s[1..] && IndexOf(s, x) == 1 + IndexOf(s[1..], x)
  {
  }

  /** Drops the first occurrence of `x` and keeps everything else in order
      (Python's `list.remove` once membership is known, and the DOM's
      `getElementById(x).remove()`). */
  function RemoveFirst<T(==)>(s: seq<T>, x: T): (r: seq<T>)
    ensures x in s ==> r == s[..IndexOf(s, x)] + s[IndexOf(s, x) + 1..]
    ensures x !in s ==> r == s
  {
    if s == [] then []
    else if s[0] == x then s[1..]
    else
      var rest := RemoveFirst(s[1..], x);
      ConsSkip(s, x, rest);
      [s[0]] + rest
  }

  /** Keeping the head in front of the tail with its first `x` dropped is
      dropping the first `x` of the whole. */
  lemma ConsSkip<T>(s: seq<T>, x: T, rest: seq<T>)
    requires s != [] && s[0] != x
    requires x in s[1..] ==> rest == s[1..][..IndexOf(s[1..], x)] + s[1..][IndexOf(s[1..], x) + 1..]
    ensures x in s ==> [s[0]] + rest == s[..IndexOf(s, x)] + s[IndexOf(s, x) + 1..]
  {
    if x in s {
      IndexOfTail(s, x);
      TailSkip(s, IndexOf(s[1..], x));
    }
  }

  /** Skipping position `k` of the tail is skipping position `k + 1` of the whole. */
  lemma TailSkip<T>(s: seq<T>, k: nat)
    requires k + 1 < |s|
    ensures [s[0]] + (s[1..][..k] + s[1..][k + 1..]) == s[..k + 1] + s[k + 2..]
  {
    assert s[..k + 1] == [s[0]] + s[1..][..k];
    assert s[k + 2..] == s[1..][k + 1..];
  }

  /** Every element except `x`, in their original order. */
  function Without<T(==)>(s: seq<T>, x: T): (r: seq<T>)
    ensures forall i :: 0 <= i < |r| ==> r[i] in s && r[i] != x
    ensures forall i :: 0 <= i < |s| && s[i] != x ==> s[i] in r
    ensures |r| <= |s|
  {
    if s == [] then []
    else if s[0] == x then Without(s[1..], x)
    else [s[0]] + Without(s[1..], x)
  }

  /** Removing the first occurrence keeps every other element; removing an
      element that occurs at most once leaves no copy of it and no duplicates. */
  lemma RemoveFirstNoDup<T(!new)>(s: seq<T>, x: T)
    ensures NoDup(s) ==> NoDup(RemoveFirst(s, x)) && x !in RemoveFirst(s, x)
    ensures forall i :: 0 <= i < |s| && s[i] != x ==> s[i] in RemoveFirst(s, x)
  {
    if x in s {
      OthersRemain(s, x);
      if NoDup(s) {
        RemovedNoDup(s, x);
        RemovedAreOthers(s, x);
      }
    }
  }

  /** Dropping one position of a duplicate-free sequence keeps it duplicate-free. */
  lemma RemovedNoDup<T>(s: seq<T>, x: T)
    requires NoDup(s) && x in s
    ensures NoDup(RemoveFirst(s, x))
  {
    var k := IndexOf(s, x);
    var r := RemoveFirst(s, x);
    if |s| > 1 {
      RemoveFirstAt(s, x, 0);
    }
    forall i, j | 0 <= i < j < |r|
      ensures r[i] != r[j]
    {
      RemoveFirstAt(s, x, i);
      RemoveFirstAt(s, x, j);
      assert Skip(i, k) < Skip(j, k);
    }
  }

  /** Position `i` of the shortened sequence holds the element at `Skip(i, k)`
      of the original, where `k` is the removed position. */
  lemma {:induction false} RemoveFirstAt<T>(s: seq<T>, x: T, i: nat)
    requires x in s && i < |s| - 1
    ensures |RemoveFirst(s, x)| == |s| - 1
    ensures RemoveFirst(s, x)[i] == s[Skip(i, IndexOf(s, x))]
    decreases |s|
  {
    if s[0] != x {
      IndexOfTail(s, x);
      var rest := RemoveFirst(s[1..], x);
      assert RemoveFirst(s, x) == [s[0]] + rest;
      if i > 0 {
        RemoveFirstAt(s[1..], x, i - 1);
        assert ([s[0]] + rest)[i] == rest[i - 1];
      }
    }
  }

  /** Index in the original sequence of position `i` after the element at `k` is dropped. */
  function Skip(i: nat, k: nat): nat {
    if i < k then i else i + 1
  }

  /** Dropping `c` commutes with appending. */
  lemma {:induction false} WithoutAppend<T>(s: seq<T>, y: T, c: T)
    ensures Without(s + [y], c) == Without(s, c) + (if y == c then [] else [y])
    decreases |s|
  {
    if s == [] {
      assert [y][1..] == [];
    } else {
      assert (s + [y])[1..] == s[1..] + [y];
      WithoutAppend(s[1..], y, c);
    }
  }

  /** Dropping `c` commutes with removing some other element `x`. */
  lemma {:induction false} WithoutRemoveFirst<T>(s: seq<T>, x: T, c: T)
    requires x != c
    ensures Without(RemoveFirst(s, x), c) == RemoveFirst(Without(s, c), x)
    decreases |s|
  {
    if s != [] && s[0] != x {
      WithoutRemoveFirst(s[1..], x, c);
      assert ([s[0]] + RemoveFirst(s[1..], x))[1..] == RemoveFirst(s[1..], x);
      if s[0] != c {
        assert ([s[0]] + Without(s[1..], c))[1..] == Without(s[1..], c);
      }
    }
  }

  /** A sequence that does not contain `c` is unchanged by dropping `c`. */
  lemma {:induction false} WithoutAbsent<T>(s: seq<T>, c: T)
    requires c !in s
    ensures Without(s, c) == s
    decreases |s|
  {
    if s != [] {
      assert c !in s[1..];
      WithoutAbsent(s[1..], c);
    }
  }

  /** Removing the only copy of `x` keeps exactly the other members. */
  lemma RemoveFirstMembers<T(!new)>(s: seq<T>, x: T)
    requires NoDup(s) && x in s
    ensures NoDup(RemoveFirst(s, x))
    ensures forall y :: y in RemoveFirst(s, x) <==> y in s && y != x
  {
    RemovedNoDup(s, x);
    RemovedAreOthers(s, x);
    OthersRemain(s, x);
  }

  lemma RemovedAreOthers<T(!new)>(s: seq<T>, x: T)
    requires NoDup(s) && x in s
    ensures forall y :: y in RemoveFirst(s, x) ==> y in s && y != x
  {
    var r := RemoveFirst(s, x);
    var k := IndexOf(s, x);
    forall y | y in r
      ensures y in s && y != x
    {
      var i :| 0 <= i < |r| && r[i] == y;
      RemoveFirstAt(s, x, i);
      var j := Skip(i, k);
      assert j < |s| && s[j] == y && j != k;
      assert s[j] != s[k];
    }
  }

  lemma OthersRemain<T(!new)>(s: seq<T>, x: T)
    requires x in s
    ensures forall y :: y in s && y != x ==> y in RemoveFirst(s, x)
  {
    var r := RemoveFirst(s, x);
    var k := IndexOf(s, x);
    forall y | y in s && y != x
      ensures y in r
    {
      var j :| 0 <= j < |s| && s[j] == y;
      assert j != k;
      var i := if j < k then j else j - 1;
      assert Skip(i, k) == j;
      RemoveFirstAt(s, x, i);
      assert r[i] == y;
    }
  }
}
