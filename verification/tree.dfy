/** The tree builder: a flat record list folded into an ordered folder tree,
    one node per distinct folder-path prefix. */
module FolderTree {
  import opened Records
  import opened Seqs

  /** A folder node: the records filed directly in it (the `"_bookmarks"` bucket)
      and its sub-folders by name, in first-insertion order. */
  datatype Node = Node(bookmarks: seq<Bookmark>, children: seq<(string, Node)>)

  function EmptyNode(): Node {
    Node([], [])
  }

  /** Position of the child called `name`, or `|cs|` when there is none. */
  function ChildIndex(cs: seq<(string, Node)>, name: string): (i: nat)
    ensures i <= |cs|
    ensures i < |cs| ==> cs[i].0 == name
    ensures forall k :: 0 <= k < i ==> cs[k].0 != name
    decreases |cs|
  {
    if |cs| == 0 then 0 else if cs[0].0 == name then 0 else 1 + ChildIndex(cs[1..], name)
  }

  function Names(cs: seq<(string, Node)>): (r: seq<string>)
    ensures |r| == |cs|
    ensures forall i :: 0 <= i < |cs| ==> r[i] == cs[i].0
  {
    seq(|cs|, i requires 0 <= i < |cs| => cs[i].0)
  }

  /** No two children of a node share a name. */
  predicate UniqueNames(cs: seq<(string, Node)>) {
    forall i, j :: 0 <= i < j < |cs| ==> cs[i].0 != cs[j].0
  }

  /** Child names are unique at every node of the tree. */
  predicate WellFormed(n: Node)
    decreases n
  {
    && UniqueNames(n.children)
    && forall i :: 0 <= i < |n.children| ==> WellFormed(n.children[i].1)
  }

  /** `p` is a prefix of `q`. */
  predicate IsPrefix(p: seq<string>, q: seq<string>) {
    |p| <= |q| && q[..|p|] == p
  }

  /** One iteration of `build_tree`'s outer loop: walk `path` from `n`, creating
      each missing folder (`setdefault`), and append `b` to the bucket reached. */
  function Insert(n: Node, path: seq<string>, b: Bookmark): Node
    decreases |path|
  {
    if |path| == 0 then
      n.(bookmarks := n.bookmarks + [b])
    else
      var i := ChildIndex(n.children, path[0]);
      if i < |n.children| then
        n.(children := n.children[i := (path[0], Insert(n.children[i].1, path[1..], b))])
      else
        n.(children := n.children + [(path[0], Insert(EmptyNode(), path[1..], b))])
  }

  /** `build_tree(bookmarks)`: the records inserted one after another, each at its folder path. */
  function BuildTree(l: seq<Bookmark>): Node
    decreases |l|
  {
    if |l| == 0 then EmptyNode()
    else Insert(BuildTree(l[..|l| - 1]), l[|l| - 1].folder, l[|l| - 1])
  }

  /** The node reached from `n` by following the folder names of `p`. */
  function Lookup(n: Node, p: seq<string>): Option<Node>
    decreases |p|
  {
    if |p| == 0 then Some(n)
    else
      var i := ChildIndex(n.children, p[0]);
      if i < |n.children| then Lookup(n.children[i].1, p[1..]) else None
  }

  /** The records filed directly at path `p`; none when there is no such folder. */
  function Bucket(n: Node, p: seq<string>): seq<Bookmark> {
    match Lookup(n, p)
    case Some(m) => m.bookmarks
    case None => []
  }

  /** The names of the sub-folders at path `p`, in order. */
  function ChildNames(n: Node, p: seq<string>): seq<string> {
    match Lookup(n, p)
    case Some(m) => Names(m.children)
    case None => []
  }

  /** The records `bs`, each moved to folder `p`. */
  function Relabel(bs: seq<Bookmark>, p: seq<string>): (r: seq<Bookmark>)
    ensures |r| == |bs|
    ensures forall i :: 0 <= i < |bs| ==> r[i] == bs[i].(folder := p)
  {
    seq(|bs|, i requires 0 <= i < |bs| => bs[i].(folder := p))
  }

  /** Every record of the tree in document order (a node's bucket, then its
      sub-folders in order), each carrying the path of the node holding it,
      with `path` the path of `n` itself. */
  function Flatten(n: Node, path: seq<string>): seq<Bookmark>
    decreases n, 1
  {
    Relabel(n.bookmarks, path) + Concat(FlattenChildren(n, path))
  }

  /** The flattened sub-folders of `n`, one block per child. */
  function FlattenChildren(n: Node, path: seq<string>): (r: seq<seq<Bookmark>>)
    ensures |r| == |n.children|
    decreases n, 0
  {
    seq(|n.children|, i requires 0 <= i < |n.children| =>
      Flatten(n.children[i].1, path + [n.children[i].0]))
  }

  /** The distinct elements of `s` in order of first appearance. */
  function Uniq(s: seq<string>): (r: seq<string>)
    ensures forall x :: x in r <==> x in s
    ensures forall i, j :: 0 <= i < j < |r| ==> r[i] != r[j]
    decreases |s|
  {
    if |s| == 0 then []
    else
      var pre := Uniq(s[..|s| - 1]);
      SnocSplit(s);
      if s[|s| - 1] in pre then pre else pre + [s[|s| - 1]]
  }

  /** For each record of `l` filed strictly below `p`, the folder name that follows
      `p` in its path, in input order (repetitions included). */
  function NextNames(l: seq<Bookmark>, p: seq<string>): seq<string>
    decreases |l|
  {
    if |l| == 0 then []
    else
      var f := l[|l| - 1].folder;
      NextNames(l[..|l| - 1], p) + (if IsPrefix(p, f) && |p| < |f| then [f[|p|]] else [])
  }

  // ----- facts about child lookup -----

  lemma {:induction false} ChildIndexUpdate(cs: seq<(string, Node)>, i: int, c: Node, name: string)
    requires 0 <= i < |cs|
    ensures ChildIndex(cs[i := (cs[i].0, c)], name) == ChildIndex(cs, name)
    decreases |cs|
  {
    if i > 0 && cs[0].0 != name {
      assert cs[i := (cs[i].0, c)][1..] == cs[1..][i - 1 := (cs[i].0, c)];
      ChildIndexUpdate(cs[1..], i - 1, c, name);
    }
  }

  lemma {:induction false} ChildIndexAppend(cs: seq<(string, Node)>, x: string, c: Node, name: string)
    requires ChildIndex(cs, x) == |cs|
    ensures ChildIndex(cs + [(x, c)], name)
         == if name == x then |cs|
            else if ChildIndex(cs, name) < |cs| then ChildIndex(cs, name)
            else |cs| + 1
    decreases |cs|
  {
    if |cs| > 0 && cs[0].0 != name {
      DropFirstAppend(cs, [(x, c)]);
      ChildIndexAppend(cs[1..], x, c, name);
    }
  }

  lemma ChildIndexUnique(cs: seq<(string, Node)>, k: int)
    requires UniqueNames(cs)
    requires 0 <= k < |cs|
    ensures ChildIndex(cs, cs[k].0) == k
  {
  }

  lemma NameInNames(cs: seq<(string, Node)>, name: string)
    ensures name in Names(cs) <==> ChildIndex(cs, name) < |cs|
  {
    if name in Names(cs) {
      var k :| 0 <= k < |cs| && Names(cs)[k] == name;
    }
  }

  lemma LookupEmpty(p: seq<string>)
    ensures Bucket(EmptyNode(), p) == []
    ensures ChildNames(EmptyNode(), p) == []
    ensures Lookup(EmptyNode(), p).Some? <==> p == []
  {
  }

  /** Children with the same names route every lookup the same way. */
  lemma LookupSameChildren(n: Node, m: Node, p: seq<string>)
    requires n.children == m.children
    requires |p| > 0
    ensures Lookup(n, p) == Lookup(m, p)
  {
  }

  /** A non-empty prefix matches on its first name and then on the rest. */
  lemma PrefixCons(p: seq<string>, q: seq<string>)
    requires |p| > 0 && |q| > 0
    ensures IsPrefix(p, q) <==> p[0] == q[0] && IsPrefix(p[1..], q[1..])
  {
    if p[0] == q[0] && IsPrefix(p[1..], q[1..]) {
      assert q[..|p|] == [q[0]] + q[1..][..|p| - 1];
      assert p == [p[0]] + p[1..];
    }
    if IsPrefix(p, q) {
      assert q[..|p|][0] == q[0];
      assert q[1..][..|p| - 1] == q[..|p|][1..];
    }
  }

  /** Moving the first step of `r` onto `path` leaves the whole path alone. */
  lemma StepDown(path: seq<string>, r: seq<string>)
    requires |r| > 0
    ensures (path + [r[0]]) + r[1..] == path + r
  {
  }

  lemma SeqCons(p: seq<string>, q: seq<string>)
    requires |p| > 0 && |q| > 0
    ensures p == q <==> p[0] == q[0] && p[1..] == q[1..]
  {
    if p[0] == q[0] && p[1..] == q[1..] {
      assert p == [p[0]] + p[1..] && q == [q[0]] + q[1..];
    }
  }

  // ----- what one insertion does -----

  /** The sub-folder called `name`, or a fresh empty folder when there is none
      (the default `setdefault` would insert). */
  function Child(n: Node, name: string): Node {
    var i := ChildIndex(n.children, name);
    if i < |n.children| then n.children[i].1 else EmptyNode()
  }

  predicate HasChild(n: Node, name: string) {
    ChildIndex(n.children, name) < |n.children|
  }

  /** A lookup below the root goes through the child named by the first step. */
  lemma LookupStep(n: Node, p: seq<string>)
    requires |p| > 0
    ensures Lookup(n, p) == if HasChild(n, p[0]) then Lookup(Child(n, p[0]), p[1..]) else None
  {
  }

  /** Inserting below the root replaces (or adds) exactly the child named by the
      first step of `q`; lookups through any other child are unaffected. */
  lemma InsertStep(n: Node, q: seq<string>, b: Bookmark, name: string)
    requires |q| > 0
    ensures HasChild(Insert(n, q, b), name) <==> HasChild(n, name) || name == q[0]
    ensures Child(Insert(n, q, b), name)
         == if name == q[0] then Insert(Child(n, q[0]), q[1..], b) else Child(n, name)
    ensures Insert(n, q, b).bookmarks == n.bookmarks
  {
    var cs := n.children;
    var i := ChildIndex(cs, q[0]);
    var c' := Insert(Child(n, q[0]), q[1..], b);
    if i < |cs| {
      ChildIndexUpdate(cs, i, c', name);
    } else {
      ChildIndexAppend(cs, q[0], c', name);
    }
  }

  /** Inserting at `q` appends the record to the bucket at `q` and changes no other bucket. */
  lemma {:induction false} InsertBucket(n: Node, q: seq<string>, b: Bookmark, p: seq<string>)
    ensures Bucket(Insert(n, q, b), p) == Bucket(n, p) + (if p == q then [b] else [])
    decreases |q|
  {
    var n' := Insert(n, q, b);
    if |q| == 0 {
      if |p| > 0 { LookupSameChildren(n, n', p); }
    } else if |p| > 0 {
      BucketStep(n, p);
      BucketStep(n', p);
      InsertStep(n, q, b, p[0]);
      SeqCons(p, q);
      if p[0] == q[0] {
        InsertBucket(Child(n, q[0]), q[1..], b, p[1..]);
      }
    }
  }

  /** Inserting at `q` adds, at each proper prefix `p` of `q`, the next name of `q`
      as a last child when no child has that name yet; nothing else changes. */
  lemma {:induction false} InsertChildNames(n: Node, q: seq<string>, b: Bookmark, p: seq<string>)
    ensures ChildNames(Insert(n, q, b), p)
         == ChildNames(n, p)
            + (if IsPrefix(p, q) && |p| < |q| && q[|p|] !in ChildNames(n, p) then [q[|p|]] else [])
    decreases |q|
  {
    var n' := Insert(n, q, b);
    if |q| == 0 {
      if |p| > 0 { LookupSameChildren(n, n', p); }
    } else if |p| == 0 {
      InsertRootChildNames(n, q, b);
    } else {
      ChildNamesStep(n, p);
      ChildNamesStep(n', p);
      InsertStep(n, q, b, p[0]);
      PrefixCons(p, q);
      if p[0] == q[0] {
        InsertChildNames(Child(n, q[0]), q[1..], b, p[1..]);
        if |p| < |q| {
          assert q[|p|] == q[1..][|p| - 1];
        }
      }
    }
  }

  /** Below the root, the bucket at `p` is the one at `p[1..]` in the child
      named `p[0]`; a missing child has none. */
  lemma BucketStep(n: Node, p: seq<string>)
    requires |p| > 0
    ensures Bucket(n, p) == Bucket(Child(n, p[0]), p[1..])
  {
    LookupStep(n, p);
    if !HasChild(n, p[0]) {
      LookupEmpty(p[1..]);
    }
  }

  /** Below the root, the child names at `p` are those at `p[1..]` in the child
      named `p[0]`; a missing child has none. */
  lemma ChildNamesStep(n: Node, p: seq<string>)
    requires |p| > 0
    ensures ChildNames(n, p) == ChildNames(Child(n, p[0]), p[1..])
  {
    LookupStep(n, p);
    if !HasChild(n, p[0]) {
      LookupEmpty(p[1..]);
    }
  }

  /** The root case of `InsertChildNames`: a new top-level folder is appended
      only when its name is not taken. */
  lemma InsertRootChildNames(n: Node, q: seq<string>, b: Bookmark)
    requires |q| > 0
    ensures Names(Insert(n, q, b).children)
         == Names(n.children) + (if q[0] !in Names(n.children) then [q[0]] else [])
  {
    var cs := n.children;
    var i := ChildIndex(cs, q[0]);
    NameInNames(cs, q[0]);
    if i < |cs| {
      assert Names(Insert(n, q, b).children) == Names(cs);
    } else {
      assert Names(Insert(n, q, b).children) == Names(cs) + [q[0]];
    }
  }

  /** After inserting at `q`, a folder exists at `p` exactly when it existed before
      or `p` is a prefix of `q`. */
  lemma {:induction false} InsertLookupExists(n: Node, q: seq<string>, b: Bookmark, p: seq<string>)
    ensures Lookup(Insert(n, q, b), p).Some? <==> Lookup(n, p).Some? || IsPrefix(p, q)
    decreases |q|
  {
    var n' := Insert(n, q, b);
    if |q| == 0 {
      if |p| > 0 { LookupSameChildren(n, n', p); }
    } else if |p| > 0 {
      LookupStep(n, p);
      LookupStep(n', p);
      InsertStep(n, q, b, p[0]);
      PrefixCons(p, q);
      if p[0] == q[0] {
        InsertLookupExists(Child(n, q[0]), q[1..], b, p[1..]);
        LookupEmpty(p[1..]);
      }
    }
  }

  /** Insertion keeps child names unique: an existing folder is reused, a new one
      is only created when no child has its name. */
  lemma {:induction false} InsertWellFormed(n: Node, q: seq<string>, b: Bookmark)
    requires WellFormed(n)
    ensures WellFormed(Insert(n, q, b))
    decreases |q|
  {
    if |q| > 0 {
      var cs := n.children;
      var i := ChildIndex(cs, q[0]);
      if i < |cs| {
        InsertWellFormed(cs[i].1, q[1..], b);
      } else {
        InsertWellFormed(EmptyNode(), q[1..], b);
      }
    }
  }

  /** Replacing one child replaces exactly its block of the flattened children. */
  lemma FlattenChildrenUpdate(n: Node, i: int, c: Node, path: seq<string>)
    requires 0 <= i < |n.children|
    ensures FlattenChildren(n.(children := n.children[i := (n.children[i].0, c)]), path)
         == FlattenChildren(n, path)[i := Flatten(c, path + [n.children[i].0])]
  {
  }

  /** Appending a child appends its block to the flattened children. */
  lemma FlattenChildrenAppend(n: Node, x: string, c: Node, path: seq<string>)
    ensures FlattenChildren(n.(children := n.children + [(x, c)]), path)
         == FlattenChildren(n, path) + [Flatten(c, path + [x])]
  {
  }

  /** Insertion adds exactly the one record to the flattened tree. */
  lemma {:induction false} InsertFlatten(n: Node, q: seq<string>, b: Bookmark, path: seq<string>)
    ensures multiset(Flatten(Insert(n, q, b), path))
         == multiset(Flatten(n, path)) + multiset{b.(folder := path + q)}
    decreases |q|
  {
    if |q| == 0 {
      InsertFlattenHere(n, b, path);
      AppendNil(path, q);
    } else {
      var cs := n.children;
      var i := ChildIndex(cs, q[0]);
      var sub := path + [q[0]];
      assert sub + q[1..] == path + q;
      InsertFlatten(Child(n, q[0]), q[1..], b, sub);
      if i < |cs| {
        InsertFlattenUpdate(n, i, Insert(cs[i].1, q[1..], b), b.(folder := path + q), path);
      } else {
        assert Flatten(EmptyNode(), sub) == [];
        InsertFlattenAppend(n, q[0], Insert(EmptyNode(), q[1..], b), path);
      }
    }
  }

  lemma InsertFlattenHere(n: Node, b: Bookmark, path: seq<string>)
    ensures multiset(Flatten(n.(bookmarks := n.bookmarks + [b]), path))
         == multiset(Flatten(n, path)) + multiset{b.(folder := path)}
  {
    var n' := n.(bookmarks := n.bookmarks + [b]);
    assert Relabel(n'.bookmarks, path) == Relabel(n.bookmarks, path) + [b.(folder := path)];
    assert FlattenChildren(n', path) == FlattenChildren(n, path);
    assert Flatten(n', path)
        == Relabel(n.bookmarks, path) + [b.(folder := path)] + Concat(FlattenChildren(n, path));
  }

  lemma InsertFlattenUpdate(n: Node, i: int, c': Node, x: Bookmark, path: seq<string>)
    requires 0 <= i < |n.children|
    requires multiset(Flatten(c', path + [n.children[i].0]))
          == multiset(Flatten(n.children[i].1, path + [n.children[i].0])) + multiset{x}
    ensures multiset(Flatten(n.(children := n.children[i := (n.children[i].0, c')]), path))
         == multiset(Flatten(n, path)) + multiset{x}
  {
    var n' := n.(children := n.children[i := (n.children[i].0, c')]);
    var sub := path + [n.children[i].0];
    var blocks := FlattenChildren(n, path);
    FlattenChildrenUpdate(n, i, c', path);
    ConcatUpdate(blocks, i, Flatten(c', sub));
    var own := Relabel(n.bookmarks, path);
    var updated := Concat(blocks[i := Flatten(c', sub)]);
    assert Flatten(n', path) == own + updated;
    assert Flatten(n, path) == own + Concat(blocks);
    MultisetCancel(multiset(updated), multiset(Concat(blocks)) + multiset{x}, multiset(blocks[i]));
  }

  lemma InsertFlattenAppend(n: Node, name: string, c': Node, path: seq<string>)
    ensures multiset(Flatten(n.(children := n.children + [(name, c')]), path))
         == multiset(Flatten(n, path)) + multiset(Flatten(c', path + [name]))
  {
    var n' := n.(children := n.children + [(name, c')]);
    var blocks := FlattenChildren(n, path);
    FlattenChildrenAppend(n, name, c', path);
    ConcatSnoc(blocks, Flatten(c', path + [name]));
    var own := Relabel(n.bookmarks, path);
    assert Flatten(n', path) == own + (Concat(blocks) + Flatten(c', path + [name]));
    assert Flatten(n, path) == own + Concat(blocks);
  }

  // ----- the tree `build_tree` returns -----

  /** Every record lands in the bucket of the node reached by its full folder
      path, in input order; no bucket holds anything else, so intermediate
      folders only hold the records filed at them. */
  lemma {:induction false} BuildTreeBucket(l: seq<Bookmark>, p: seq<string>)
    ensures Bucket(BuildTree(l), p) == InFolder(l, p)
    decreases |l|
  {
    if |l| == 0 {
      LookupEmpty(p);
    } else {
      BuildTreeBucket(l[..|l| - 1], p);
      InsertBucket(BuildTree(l[..|l| - 1]), l[|l| - 1].folder, l[|l| - 1], p);
    }
  }

  lemma UniqSnoc(s: seq<string>, x: string)
    ensures Uniq(s + [x]) == if x in Uniq(s) then Uniq(s) else Uniq(s) + [x]
  {
    TakeSnoc(s, x);
  }

  /** The sub-folders of each folder are the distinct next path names of the
      records below it, in order of first appearance in the input. */
  lemma {:induction false} BuildTreeChildNames(l: seq<Bookmark>, p: seq<string>)
    ensures ChildNames(BuildTree(l), p) == Uniq(NextNames(l, p))
    decreases |l|
  {
    if |l| == 0 {
      LookupEmpty(p);
    } else {
      var pre := l[..|l| - 1];
      var f := l[|l| - 1].folder;
      BuildTreeChildNames(pre, p);
      InsertChildNames(BuildTree(pre), f, l[|l| - 1], p);
      if IsPrefix(p, f) && |p| < |f| {
        assert NextNames(l, p) == NextNames(pre, p) + [f[|p|]];
        UniqSnoc(NextNames(pre, p), f[|p|]);
      } else {
        assert NextNames(l, p) == NextNames(pre, p);
      }
    }
  }

  /** A folder node exists exactly for the root and for every prefix of some
      record's folder path. */
  lemma {:induction false} BuildTreeFolders(l: seq<Bookmark>, p: seq<string>)
    ensures Lookup(BuildTree(l), p).Some?
        <==> p == [] || exists i :: 0 <= i < |l| && IsPrefix(p, l[i].folder)
    decreases |l|
  {
    if |l| == 0 {
      LookupEmpty(p);
    } else {
      var pre := l[..|l| - 1];
      BuildTreeFolders(pre, p);
      InsertLookupExists(BuildTree(pre), l[|l| - 1].folder, l[|l| - 1], p);
      if exists i :: 0 <= i < |l| && IsPrefix(p, l[i].folder) {
        var i :| 0 <= i < |l| && IsPrefix(p, l[i].folder);
        if i < |l| - 1 { assert pre[i] == l[i]; }
      }
      if exists i :: 0 <= i < |pre| && IsPrefix(p, pre[i].folder) {
        var i :| 0 <= i < |pre| && IsPrefix(p, pre[i].folder);
        assert pre[i] == l[i];
      }
    }
  }

  /** `build_tree` never creates two folders with the same name under one parent. */
  lemma {:induction false} BuildTreeWellFormed(l: seq<Bookmark>)
    ensures WellFormed(BuildTree(l))
    decreases |l|
  {
    if |l| > 0 {
      BuildTreeWellFormed(l[..|l| - 1]);
      InsertWellFormed(BuildTree(l[..|l| - 1]), l[|l| - 1].folder, l[|l| - 1]);
    }
  }

  /** The tree holds every input record exactly once: its records in document
      order are a permutation of the input, so the count is preserved. */
  lemma {:induction false} BuildTreePermutation(l: seq<Bookmark>)
    ensures multiset(Flatten(BuildTree(l), [])) == multiset(l)
    ensures |Flatten(BuildTree(l), [])| == |l|
    decreases |l|
  {
    if |l| > 0 {
      var pre := l[..|l| - 1];
      var b := l[|l| - 1];
      BuildTreePermutation(pre);
      InsertFlatten(BuildTree(pre), b.folder, b, []);
      assert b.(folder := [] + b.folder) == b;
      SnocSplit(l);
    }
    assert |multiset(Flatten(BuildTree(l), []))| == |multiset(l)|;
  }

  // ----- reading buckets back from the flattened tree -----

  /** Every record of the flattened subtree at `path` is filed at or below `path`. */
  lemma {:induction false} FlattenFolders(n: Node, path: seq<string>, x: Bookmark)
    requires x in Flatten(n, path)
    ensures IsPrefix(path, x.folder)
    decreases n
  {
    var blocks := FlattenChildren(n, path);
    if x !in Relabel(n.bookmarks, path) {
      assert x in Concat(blocks);
      ConcatMember(blocks, x);
      var i :| 0 <= i < |blocks| && x in blocks[i];
      var sub := path + [n.children[i].0];
      FlattenFolders(n.children[i].1, sub, x);
      assert x.folder[..|path|] == sub[..|path|];
    }
  }

  /** The selection of folder `p` from each member of `ss`. */
  function InFolderEach(ss: seq<seq<Bookmark>>, p: seq<string>): (r: seq<seq<Bookmark>>)
    ensures |r| == |ss|
    ensures forall i :: 0 <= i < |ss| ==> r[i] == InFolder(ss[i], p)
  {
    seq(|ss|, i requires 0 <= i < |ss| => InFolder(ss[i], p))
  }

  /** Selecting one folder commutes with concatenation. */
  lemma {:induction false} InFolderConcat(ss: seq<seq<Bookmark>>, p: seq<string>)
    ensures InFolder(Concat(ss), p) == Concat(InFolderEach(ss, p))
    decreases |ss|
  {
    if |ss| > 0 {
      InFolderAppend(ss[0], Concat(ss[1..]), p);
      InFolderConcat(ss[1..], p);
      var m := InFolderEach(ss, p);
      assert m[1..] == InFolderEach(ss[1..], p);
    }
  }

  /** A block of sub-folder `i` holds nothing filed in a folder whose name at that
      depth differs from the sub-folder's name. */
  lemma OtherBlockEmpty(n: Node, path: seq<string>, r: seq<string>, i: int)
    requires 0 <= i < |n.children|
    requires |r| == 0 || n.children[i].0 != r[0]
    ensures InFolder(FlattenChildren(n, path)[i], path + r) == []
  {
    var block := FlattenChildren(n, path)[i];
    var sub := path + [n.children[i].0];
    forall k | 0 <= k < |block| ensures block[k].folder != path + r {
      FlattenFolders(n.children[i].1, sub, block[k]);
      var f := block[k].folder;
      assert f[..|sub|] == sub;
      assert f[|path|] == sub[|path|] == n.children[i].0;
      if |r| > 0 {
        assert (path + r)[|path|] == r[0];
      } else {
        assert |f| > |path + r|;
      }
    }
    InFolderNone(block, path + r);
  }

  /** The records of the flattened subtree at `path` sitting in `path` itself are
      the node's own bucket. */
  lemma FlattenInFolderHere(n: Node, path: seq<string>)
    ensures InFolder(Flatten(n, path), path) == Relabel(n.bookmarks, path)
  {
    var blocks := FlattenChildren(n, path);
    var own := Relabel(n.bookmarks, path);
    InFolderAppend(own, Concat(blocks), path);
    InFolderConcat(blocks, path);
    InFolderAll(own, path);
    var sel := InFolderEach(blocks, path);
    forall i | 0 <= i < |blocks| ensures sel[i] == [] {
      OtherBlockEmpty(n, path, [], i);
      AppendNil(path, []);
    }
    ConcatAllEmpty(sel);
    AppendNil(own, Concat(sel));
  }

  /** Below a node with unique child names, the records of its sub-folder
      blocks filed in `path + r` all come from the block of the child named
      `r[0]`, if there is one. */
  lemma ChildrenInFolder(n: Node, path: seq<string>, r: seq<string>)
    requires UniqueNames(n.children) && |r| > 0
    ensures InFolder(Concat(FlattenChildren(n, path)), path + r)
         == if HasChild(n, r[0]) then InFolder(FlattenChildren(n, path)[ChildIndex(n.children, r[0])], path + r) else []
  {
    var cs := n.children;
    var blocks := FlattenChildren(n, path);
    InFolderConcat(blocks, path + r);
    var sel := InFolderEach(blocks, path + r);
    var j := ChildIndex(cs, r[0]);
    forall i | 0 <= i < |blocks| && i != j ensures sel[i] == [] {
      if cs[i].0 == r[0] { ChildIndexUnique(cs, i); }
      OtherBlockEmpty(n, path, r, i);
    }
    if j < |cs| {
      ConcatOnlyOne(sel, j);
    } else {
      ConcatAllEmpty(sel);
    }
  }

  /** In a tree with unique child names, the records of the flattened subtree at
      `path` that sit in folder `path + r` are exactly the bucket at `r`. */
  lemma {:induction false} FlattenInFolder(n: Node, path: seq<string>, r: seq<string>)
    requires WellFormed(n)
    ensures InFolder(Flatten(n, path), path + r) == Relabel(Bucket(n, r), path + r)
    decreases n
  {
    if |r| == 0 {
      AppendNil(path, r);
      FlattenInFolderHere(n, path);
    } else {
      var blocks := FlattenChildren(n, path);
      var own := Relabel(n.bookmarks, path);
      InFolderAppend(own, Concat(blocks), path + r);
      InFolderNone(own, path + r);
      ChildrenInFolder(n, path, r);
      LookupStep(n, r);
      if HasChild(n, r[0]) {
        var j := ChildIndex(n.children, r[0]);
        var sub := path + [r[0]];
        StepDown(path, r);
        FlattenInFolder(n.children[j].1, sub, r[1..]);
      } else {
        assert Bucket(n, r) == [];
      }
    }
  }

  lemma BuildTreeFlattenInFolder(l: seq<Bookmark>, p: seq<string>)
    ensures InFolder(Flatten(BuildTree(l), []), p) == InFolder(l, p)
  {
    BuildTreeWellFormed(l);
    FlattenInFolder(BuildTree(l), [], p);
    BuildTreeBucket(l, p);
    assert [] + p == p;
    var bs := InFolder(l, p);
    assert forall i :: 0 <= i < |bs| ==> bs[i] in bs;
    assert Relabel(bs, p) == bs;
  }
}
