/** The canonical bookmark record every source adapter produces and every later
    stage consumes: the dict `{"title", "url", "folder", "add_date"}` of the
    Python code, with Python's `None` made explicit. */
module Records {
  import opened Seqs

  datatype Option<+T> = None | Some(value: T)

  /** A record. `title`, `url` and `addDate` may be Python's `None` (a NULL
      column, a valueless HTML attribute, a JSON null); `folder` is the
      root-to-leaf list of folder names, empty for a bookmark at the root. */
  datatype Bookmark = Bookmark(
    title: Option<string>,
    url: Option<string>,
    folder: seq<string>,
    addDate: Option<string>)

  /** Python truthiness of the url: present and not the empty string. Only
      such records have a deduplication key. */
  predicate HasUrl(b: Bookmark) {
    b.url.Some? && b.url.value != ""
  }

  /** How an f-string renders a text field: `None` prints as the word None. */
  function Render(t: Option<string>): string {
    match t
    case None => "None"
    case Some(s) => s
  }

  /** The records of `s` filed under exactly the folder path `p`, in order. */
  function InFolder(s: seq<Bookmark>, p: seq<string>): (r: seq<Bookmark>)
    ensures |r| <= |s|
    ensures forall b :: b in r ==> b in s && b.folder == p
    ensures forall b :: b in s && b.folder == p ==> b in r
    decreases |s|
  {
    if |s| == 0 then []
    else InFolder(s[..|s| - 1], p) + (if s[|s| - 1].folder == p then [s[|s| - 1]] else [])
  }

  /** One more record is selected exactly when it sits in `p`. */
  lemma InFolderSnoc(s: seq<Bookmark>, x: Bookmark, p: seq<string>)
    ensures InFolder(s + [x], p) == InFolder(s, p) + (if x.folder == p then [x] else [])
  {
    TakeSnoc(s, x);
  }

  /** Selecting a folder distributes over concatenation. */
  lemma {:induction false} InFolderAppend(a: seq<Bookmark>, b: seq<Bookmark>, p: seq<string>)
    ensures InFolder(a + b, p) == InFolder(a, p) + InFolder(b, p)
    decreases |b|
  {
    if |b| > 0 {
      var b' := b[..|b| - 1];
      var x := b[|b| - 1];
      var tail := if x.folder == p then [x] else [];
      SnocSplit(b);
      InFolderAppend(a, b', p);
      AppendAssoc(a, b', [x]);
      InFolderSnoc(a + b', x, p);
      InFolderSnoc(b', x, p);
      AppendAssoc(InFolder(a, p), InFolder(b', p), tail);
    } else {
      AppendNil(a, b);
    }
  }

  /** A sequence whose records all sit in folder `p` is its own selection for `p`. */
  lemma {:induction false} InFolderAll(s: seq<Bookmark>, p: seq<string>)
    requires forall i :: 0 <= i < |s| ==> s[i].folder == p
    ensures InFolder(s, p) == s
    decreases |s|
  {
    if |s| > 0 {
      var pre := s[..|s| - 1];
      var x := s[|s| - 1];
      assert x.folder == p;
      InFolderAll(pre, p);
      SnocSplit(s);
      InFolderSnoc(pre, x, p);
    }
  }

  /** A sequence with no record in folder `p` selects nothing for `p`. */
  lemma {:induction false} InFolderNone(s: seq<Bookmark>, p: seq<string>)
    requires forall i :: 0 <= i < |s| ==> s[i].folder != p
    ensures InFolder(s, p) == []
    decreases |s|
  {
    if |s| > 0 {
      InFolderNone(s[..|s| - 1], p);
    }
  }
}
