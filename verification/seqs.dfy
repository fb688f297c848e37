/** Flattening a sequence of sequences, the one list operation the tree code
    needs beyond Dafny's built-ins. */
module Seqs {

  /** The concatenation of all the sequences of `ss`, in order. */
  function Concat<T>(ss: seq<seq<T>>): (r: seq<T>)
    decreases |ss|
  {
    if |ss| == 0 then [] else ss[0] + Concat(ss[1..])
  }

  lemma {:induction false} ConcatAppend<T>(a: seq<seq<T>>, b: seq<seq<T>>)
    ensures Concat(a + b) == Concat(a) + Concat(b)
    decreases |a|
  {
    if |a| == 0 {
      AppendNil(a, b);
    } else {
      DropFirstAppend(a, b);
      ConcatAppend(a[1..], b);
    }
  }

  lemma {:induction false} ConcatSnoc<T>(a: seq<seq<T>>, x: seq<T>)
    ensures Concat(a + [x]) == Concat(a) + x
  {
    ConcatAppend(a, [x]);
    assert Concat([x]) == x + Concat([x][1..]);
  }

  /** Concatenation splits around any position. */
  lemma {:induction false} ConcatSplit<T>(ss: seq<seq<T>>, i: int)
    requires 0 <= i < |ss|
    ensures Concat(ss) == Concat(ss[..i]) + ss[i] + Concat(ss[i + 1..])
  {
    var rest := [ss[i]] + ss[i + 1..];
    assert ss == ss[..i] + rest;
    ConcatAppend(ss[..i], rest);
    assert rest[0] == ss[i] && rest[1..] == ss[i + 1..];
    assert Concat(rest) == ss[i] + Concat(ss[i + 1..]);
  }

  /** Replacing one member changes the multiset of the concatenation by exactly
      that member's difference. */
  lemma {:induction false} ConcatUpdate<T>(ss: seq<seq<T>>, i: int, x: seq<T>)
    requires 0 <= i < |ss|
    ensures multiset(Concat(ss[i := x])) + multiset(ss[i]) == multiset(Concat(ss)) + multiset(x)
  {
    var tt := ss[i := x];
    ConcatSplit(ss, i);
    ConcatSplit(tt, i);
    assert tt[..i] == ss[..i];
    assert tt[i + 1..] == ss[i + 1..];
  }

  /** A concatenation whose members are all empty is empty. */
  lemma {:induction false} ConcatAllEmpty<T>(ss: seq<seq<T>>)
    requires forall i :: 0 <= i < |ss| ==> ss[i] == []
    ensures Concat(ss) == []
    decreases |ss|
  {
    if |ss| > 0 {
      ConcatAllEmpty(ss[1..]);
    }
  }

  /** A concatenation with at most one non-empty member, at position `i`, is that member. */
  lemma {:induction false} ConcatOnlyOne<T>(ss: seq<seq<T>>, i: int)
    requires 0 <= i < |ss|
    requires forall k :: 0 <= k < |ss| && k != i ==> ss[k] == []
    ensures Concat(ss) == ss[i]
  {
    ConcatSplit(ss, i);
    ConcatAllEmpty(ss[..i]);
    ConcatAllEmpty(ss[i + 1..]);
  }

  /** Every element of a concatenation comes from one of its members. */
  lemma {:induction false} ConcatMember<T>(ss: seq<seq<T>>, x: T)
    requires x in Concat(ss)
    ensures exists i :: 0 <= i < |ss| && x in ss[i]
    decreases |ss|
  {
    if x !in ss[0] {
      ConcatMember(ss[1..], x);
      var i :| 0 <= i < |ss[1..]| && x in ss[1..][i];
      assert ss[1..][i] == ss[i + 1];
    }
  }

  lemma SnocSplit<T>(s: seq<T>)
    requires |s| > 0
    ensures s == s[..|s| - 1] + [s[|s| - 1]]
  {
  }

  lemma TakeSnoc<T>(s: seq<T>, x: T)
    ensures (s + [x])[..|s|] == s
  {
  }

  lemma DropLastAppend<T>(a: seq<T>, b: seq<T>)
    requires |b| > 0
    ensures (a + b)[..|a + b| - 1] == a + b[..|b| - 1]
  {
  }

  lemma DropFirstAppend<T>(a: seq<T>, b: seq<T>)
    requires |a| > 0
    ensures (a + b)[1..] == a[1..] + b
  {
  }

  lemma AppendNil<T>(a: seq<T>, b: seq<T>)
    ensures |b| == 0 ==> a + b == a
    ensures |a| == 0 ==> a + b == b
  {
  }

  lemma TakeOfDrop<T>(s: seq<T>, i: int, n: int)
    requires 0 <= i && 0 <= n && i + n <= |s|
    ensures s[i..][..n] == s[i..i + n]
  {
  }

  lemma DropOfDrop<T>(s: seq<T>, i: int, j: int)
    requires 0 <= i && 0 <= j && i + j <= |s|
    ensures s[i..][j..] == s[i + j..]
  {
  }

  lemma TakeAppend<T>(a: seq<T>, b: seq<T>)
    ensures (a + b)[..|a|] == a
  {
  }

  lemma AppendAssoc<T>(x: seq<T>, y: seq<T>, z: seq<T>)
    ensures (x + y) + z == x + (y + z)
  {
  }

  /** Multiset sums cancel. */
  lemma MultisetCancel<T>(a: multiset<T>, b: multiset<T>, c: multiset<T>)
    requires a + c == b + c
    ensures a == b
  {
    forall x ensures a[x] == b[x] {
      assert (a + c)[x] == (b + c)[x];
    }
  }
}
