/** The merge engine: two record lists become one, deduplicated by url, first
    occurrence wins, input order kept, records without a url dropped. */
module Merge {
  import opened Records
  import opened Seqs

  /** The non-empty urls occurring in `s`. */
  function UrlSet(s: seq<Bookmark>): set<string> {
    set i | 0 <= i < |s| && HasUrl(s[i]) :: s[i].url.value
  }

  /** No two records of `s` share a url. */
  predicate DistinctUrls(s: seq<Bookmark>) {
    forall i, j :: 0 <= i < j < |s| ==> s[i].url != s[j].url
  }

  /** Every record of `s` has a non-empty url. */
  predicate AllHaveUrls(s: seq<Bookmark>) {
    forall i :: 0 <= i < |s| ==> HasUrl(s[i])
  }

  /** Position `i` of `s` holds the first record carrying its (non-empty) url. */
  ghost predicate IsFirstOccurrence(s: seq<Bookmark>, i: int) {
    && 0 <= i < |s|
    && HasUrl(s[i])
    && forall j :: 0 <= j < i ==> s[j].url != s[i].url
  }

  lemma UrlSetSnoc(s: seq<Bookmark>, b: Bookmark)
    ensures UrlSet(s + [b]) == UrlSet(s) + (if HasUrl(b) then {b.url.value} else {})
  {
    var t := s + [b];
    forall u | u in UrlSet(t) ensures u in UrlSet(s) + (if HasUrl(b) then {b.url.value} else {}) {
      var i :| 0 <= i < |t| && HasUrl(t[i]) && t[i].url.value == u;
      if i < |s| { assert t[i] == s[i]; }
    }
    forall u | u in UrlSet(s) ensures u in UrlSet(t) {
      var i :| 0 <= i < |s| && HasUrl(s[i]) && s[i].url.value == u;
      assert t[i] == s[i];
    }
    assert t[|s|] == b;
  }

  lemma UrlSetAppend(a: seq<Bookmark>, b: seq<Bookmark>)
    ensures UrlSet(a + b) == UrlSet(a) + UrlSet(b)
  {
    var t := a + b;
    forall u | u in UrlSet(t) ensures u in UrlSet(a) + UrlSet(b) {
      var i :| 0 <= i < |t| && HasUrl(t[i]) && t[i].url.value == u;
      if i < |a| { assert t[i] == a[i]; } else { assert t[i] == b[i - |a|]; }
    }
    forall u | u in UrlSet(a) ensures u in UrlSet(t) {
      var i :| 0 <= i < |a| && HasUrl(a[i]) && a[i].url.value == u;
      assert t[i] == a[i];
    }
    forall u | u in UrlSet(b) ensures u in UrlSet(t) {
      var i :| 0 <= i < |b| && HasUrl(b[i]) && b[i].url.value == u;
      assert t[|a| + i] == b[i];
    }
  }

  /** One pass of first-seen-wins deduplication over `s`, written as the fold the
      Python loop performs: the record at the end is kept when its url is
      non-empty and not yet among the urls kept from the prefix. */
  function Dedup(s: seq<Bookmark>): (r: seq<Bookmark>)
    ensures AllHaveUrls(r)
    ensures DistinctUrls(r)
    ensures UrlSet(r) == UrlSet(s)
    ensures |r| <= |s|
    decreases |s|
  {
    if |s| == 0 then []
    else
      var rest := Dedup(s[..|s| - 1]);
      var b := s[|s| - 1];
      SnocSplit(s);
      UrlSetSnoc(s[..|s| - 1], b);
      if HasUrl(b) && b.url.value !in UrlSet(rest) then
        UrlSetSnoc(rest, b);
        assert forall i :: 0 <= i < |rest| ==> rest[i].url.value in UrlSet(rest);
        rest + [b]
      else
        rest
  }

  /** `merge_bookmark_lists(list1, list2)`. */
  function Merge(list1: seq<Bookmark>, list2: seq<Bookmark>): (r: seq<Bookmark>)
    ensures AllHaveUrls(r)
    ensures DistinctUrls(r)
    ensures UrlSet(r) == UrlSet(list1) + UrlSet(list2)
    ensures |r| <= |list1| + |list2|
  {
    UrlSetAppend(list1, list2);
    Dedup(list1 + list2)
  }

  /** The loop of `merge_bookmark_lists`: an insertion-ordered dictionary from url
      to the first record seen with it, represented by its key set `seen` and
      its values in insertion order `merged`. */
  method MergeBookmarkLists(list1: seq<Bookmark>, list2: seq<Bookmark>) returns (merged: seq<Bookmark>)
    ensures merged == Merge(list1, list2)
    ensures AllHaveUrls(merged) && DistinctUrls(merged)
  {
    var all := list1 + list2;
    var seen: set<string> := {};
    merged := [];
    var i := 0;
    while i < |all|
      invariant 0 <= i <= |all|
      invariant merged == Dedup(all[..i])
      invariant seen == UrlSet(merged)
    {
      var bm := all[i];
      assert all[..i + 1] == all[..i] + [bm];
      if bm.url.Some? && bm.url.value != "" && bm.url.value !in seen {
        UrlSetSnoc(merged, bm);
        seen := seen + {bm.url.value};
        merged := merged + [bm];
      }
      i := i + 1;
    }
    assert all[..|all|] == all;
  }

  /** Positions of a prefix that are first occurrences there are first occurrences
      in the whole sequence too. */
  lemma FirstOccurrenceOfPrefix(s: seq<Bookmark>, n: nat, i: int)
    requires n <= |s|
    requires IsFirstOccurrence(s[..n], i)
    ensures IsFirstOccurrence(s, i)
  {
    assert s[i] == s[..n][i];
    forall j | 0 <= j < i ensures s[j].url != s[i].url {
      assert s[j] == s[..n][j];
    }
  }

  /** The last position is a first occurrence exactly when its url is non-empty
      and absent from the prefix. */
  lemma LastFirstOccurrence(s: seq<Bookmark>)
    requires |s| > 0
    ensures IsFirstOccurrence(s, |s| - 1)
        <==> HasUrl(s[|s| - 1]) && s[|s| - 1].url.value !in UrlSet(s[..|s| - 1])
  {
    var n := |s| - 1;
    var pre := s[..n];
    var b := s[n];
    if HasUrl(b) && b.url.value !in UrlSet(pre) {
      forall j | 0 <= j < n ensures s[j].url != b.url {
        assert s[j] == pre[j];
        if HasUrl(s[j]) {
          assert s[j].url.value in UrlSet(pre);
        }
      }
    }
    if HasUrl(b) && b.url.value in UrlSet(pre) {
      var j :| 0 <= j < |pre| && HasUrl(pre[j]) && pre[j].url.value == b.url.value;
      assert s[j] == pre[j];
    }
  }

  /** `idx` lists, in increasing order, exactly the positions of `s` that are
      first occurrences, and `r` is `s` read at those positions. */
  ghost predicate Selects(s: seq<Bookmark>, r: seq<Bookmark>, idx: seq<nat>) {
    && |idx| == |r|
    && (forall k :: 0 <= k < |idx| ==> idx[k] < |s| && r[k] == s[idx[k]])
    && (forall k :: 0 <= k < |idx| ==> IsFirstOccurrence(s, idx[k]))
    && (forall k, m :: 0 <= k < m < |idx| ==> idx[k] < idx[m])
    && (forall i :: IsFirstOccurrence(s, i) ==> i in idx)
  }

  /** Dedup keeps exactly the first occurrences, in input order: the output is the
      subsequence of `s` at the increasing positions `idx`, each position holds
      the first record with its url, and every such position is selected. */
  lemma {:induction false} DedupSelectsFirstOccurrences(s: seq<Bookmark>) returns (idx: seq<nat>)
    ensures Selects(s, Dedup(s), idx)
    decreases |s|
  {
    if |s| == 0 {
      return [];
    }
    var n := |s| - 1;
    var pre := s[..n];
    var b := s[n];
    var idx0 := DedupSelectsFirstOccurrences(pre);
    LastFirstOccurrence(s);
    SnocSplit(s);
    DedupSnoc(pre, b);
    assert UrlSet(Dedup(pre)) == UrlSet(pre);
    if IsFirstOccurrence(s, n) {
      idx := idx0 + [n];
      SelectsKept(s, Dedup(pre), idx0);
    } else {
      idx := idx0;
      SelectsDropped(s, Dedup(pre), idx0);
    }
  }

  /** A first occurrence at the end extends the selection of the prefix by one. */
  lemma SelectsKept(s: seq<Bookmark>, r: seq<Bookmark>, idx: seq<nat>)
    requires |s| > 0 && Selects(s[..|s| - 1], r, idx) && IsFirstOccurrence(s, |s| - 1)
    ensures Selects(s, r + [s[|s| - 1]], idx + [|s| - 1])
  {
    var n := |s| - 1;
    var r' := r + [s[n]];
    var idx' := idx + [n];
    forall k | 0 <= k < |idx'| ensures idx'[k] < |s| && r'[k] == s[idx'[k]] && IsFirstOccurrence(s, idx'[k]) {
      if k < |idx| {
        assert idx'[k] == idx[k] && r'[k] == r[k];
        FirstOccurrenceOfPrefix(s, n, idx[k]);
      }
    }
    forall i | IsFirstOccurrence(s, i) ensures i in idx' {
      if i < n {
        assert IsFirstOccurrence(s[..n], i);
        assert i in idx;
      } else {
        assert idx'[|idx|] == i;
      }
    }
  }

  /** A repeated (or url-less) record at the end leaves the selection alone. */
  lemma SelectsDropped(s: seq<Bookmark>, r: seq<Bookmark>, idx: seq<nat>)
    requires |s| > 0 && Selects(s[..|s| - 1], r, idx) && !IsFirstOccurrence(s, |s| - 1)
    ensures Selects(s, r, idx)
  {
    var n := |s| - 1;
    forall k | 0 <= k < |idx| ensures r[k] == s[idx[k]] && IsFirstOccurrence(s, idx[k]) {
      FirstOccurrenceOfPrefix(s, n, idx[k]);
    }
    forall i | IsFirstOccurrence(s, i) ensures i in idx {
      assert IsFirstOccurrence(s[..n], i);
    }
  }

  /** First-seen wins: the first record of the input with a given url is in the
      output, and it is the only output record with that url. */
  lemma FirstSeenWins(s: seq<Bookmark>, i: int)
    requires IsFirstOccurrence(s, i)
    ensures s[i] in Dedup(s)
    ensures forall b :: b in Dedup(s) && b.url == s[i].url ==> b == s[i]
  {
    var idx := DedupSelectsFirstOccurrences(s);
    var r := Dedup(s);
    var k :| 0 <= k < |idx| && idx[k] == i;
    assert r[k] == s[i];
    forall b | b in r && b.url == s[i].url ensures b == s[i] {
      var m :| 0 <= m < |r| && r[m] == b;
      assert m == k;
    }
  }

  /** A list that already has distinct, non-empty urls passes through unchanged. */
  lemma {:induction false} DedupOfClean(s: seq<Bookmark>)
    requires AllHaveUrls(s) && DistinctUrls(s)
    ensures Dedup(s) == s
    decreases |s|
  {
    if |s| > 0 {
      var n := |s| - 1;
      var pre := s[..n];
      var b := s[n];
      forall i | 0 <= i < n && HasUrl(pre[i]) ensures pre[i].url.value != b.url.value {
        assert pre[i] == s[i];
      }
      DedupOfClean(pre);
      SnocSplit(s);
      DedupSnoc(pre, b);
    }
  }

  /** Deduplicating twice is deduplicating once. */
  lemma DedupIdempotent(s: seq<Bookmark>)
    ensures Dedup(Dedup(s)) == Dedup(s)
  {
    DedupOfClean(Dedup(s));
  }

  /** Appending records whose urls are all already present changes nothing. */
  lemma {:induction false} DedupAbsorb(x: seq<Bookmark>, y: seq<Bookmark>)
    requires UrlSet(y) <= UrlSet(x)
    ensures Dedup(x + y) == Dedup(x)
    decreases |y|
  {
    if |y| > 0 {
      var y' := y[..|y| - 1];
      var e := y[|y| - 1];
      SnocSplit(y);
      UrlSetSnoc(y', e);
      DedupAbsorb(x, y');
      DropLastAppend(x, y);
      UrlSetAppend(x, y');
    } else {
      AppendNil(x, y);
    }
  }

  /** Deduplicating a prefix first does not change the result of deduplicating
      the whole sequence. */
  lemma {:induction false} DedupPrefix(x: seq<Bookmark>, y: seq<Bookmark>)
    ensures Dedup(Dedup(x) + y) == Dedup(x + y)
    decreases |y|
  {
    if |y| == 0 {
      assert Dedup(x) + y == Dedup(x);
      AppendNil(x, y);
      DedupIdempotent(x);
    } else {
      var y' := y[..|y| - 1];
      var b := y[|y| - 1];
      SnocSplit(y);
      DedupPrefix(x, y');
      AppendAssoc(Dedup(x), y', [b]);
      AppendAssoc(x, y', [b]);
      DedupSnoc(Dedup(x) + y', b);
      DedupSnoc(x + y', b);
    }
  }

  /** One more record: kept exactly when it has a url not yet kept. */
  lemma DedupSnoc(s: seq<Bookmark>, b: Bookmark)
    ensures Dedup(s + [b])
         == if HasUrl(b) && b.url.value !in UrlSet(Dedup(s)) then Dedup(s) + [b] else Dedup(s)
  {
    TakeSnoc(s, b);
  }

  lemma MergeSelf(l: seq<Bookmark>)
    ensures Merge(l, l) == Dedup(l)
  {
    UrlSetAppend(l, l);
    DedupAbsorb(l, l);
  }

  /** Merging an already clean list with itself returns it unchanged. */
  lemma MergeSelfClean(l: seq<Bookmark>)
    requires AllHaveUrls(l) && DistinctUrls(l)
    ensures Merge(l, l) == l
  {
    MergeSelf(l);
    DedupOfClean(l);
  }

  /** Merging three sources pairwise from the left equals one global
      first-seen-wins pass over their concatenation. */
  lemma MergeLeftFold(a: seq<Bookmark>, b: seq<Bookmark>, c: seq<Bookmark>)
    ensures Merge(Merge(a, b), c) == Dedup(a + b + c)
  {
    DedupPrefix(a + b, c);
  }

  /** Of two records with the same url, the one from the first list is kept. */
  lemma MergeExamples()
    ensures Merge([Bookmark(Some("A1"), Some("a"), [], Some(""))],
                  [Bookmark(Some("A2"), Some("a"), [], Some(""))])
         == [Bookmark(Some("A1"), Some("a"), [], Some(""))]
  {
    var b1 := Bookmark(Some("A1"), Some("a"), [], Some(""));
    var b2 := Bookmark(Some("A2"), Some("a"), [], Some(""));
    assert [b1] + [b2] == [b1, b2];
    assert [b1, b2][..1] == [b1];
    assert [b1][..0] == [];
    UrlSetSnoc([], b1);
    assert [] + [b1] == [b1];
    assert Dedup([b1]) == [b1];
  }

  /** A record whose url is new is appended. */
  lemma DedupFresh(s: seq<Bookmark>, b: Bookmark)
    requires HasUrl(b) && b.url.value !in UrlSet(s)
    ensures Dedup(s + [b]) == Dedup(s) + [b]
  {
    DedupSnoc(s, b);
  }

  /** A record repeating a url already seen is dropped. */
  lemma DedupSeen(s: seq<Bookmark>, b: Bookmark)
    requires b in s && HasUrl(b)
    ensures Dedup(s + [b]) == Dedup(s)
  {
    DedupSnoc(s, b);
    var i :| 0 <= i < |s| && s[i] == b;
    assert b.url.value in UrlSet(s);
  }

  /** Records keep their first-seen order across the two lists: a record of
      the second list that repeats a url of the first is dropped, the others
      follow the first list's records. */
  lemma MergeOrderExample(x: Bookmark, y: Bookmark, z: Bookmark)
    requires HasUrl(x) && HasUrl(y) && HasUrl(z)
    requires x.url != y.url && y.url != z.url && x.url != z.url
    ensures Merge([x, y], [z, x]) == [x, y, z]
  {
    assert [x, y] + [z, x] == [x, y, z] + [x];
    assert [x, y, z] == [x, y] + [z] && [x, y] == [x] + [y] && [x] == [] + [x];
    UrlSetSnoc([], x);
    DedupFresh([], x);
    UrlSetSnoc([x], y);
    DedupFresh([x], y);
    DedupFresh([x, y], z);
    DedupSeen([x, y, z], x);
  }
}
