/** The HTML writer: `tree_to_html` renders a folder tree as indented lines of
    the Netscape bookmark format, and `export_bookmarks` wraps them in the fixed
    document preamble and one outer list. The lines are first built as `Line`
    values, so that their structure can be stated apart from their text. */
module HtmlExport {
  import opened Records
  import opened Seqs
  import opened FolderTree

  /** One output line of `tree_to_html`, before rendering. */
  datatype Line =
    | LinkLine(depth: nat, b: Bookmark)
    | HeadingLine(depth: nat, name: string)
    | ListOpen(depth: nat)
    | ListClose(depth: nat)

  /** `"    " * indent`. */
  function Indent(depth: nat): (r: string)
    ensures |r| == 4 * depth
    ensures forall i :: 0 <= i < |r| ==> r[i] == ' '
  {
    if depth == 0 then "" else "    " + Indent(depth - 1)
  }

  /** The text of one line. Text fields are written verbatim, with no escaping;
      a missing value prints as `None`. */
  function RenderLine(line: Line): string {
    match line
    case LinkLine(d, b) =>
      Indent(d) + "<DT><A HREF=\"" + Render(b.url) + "\" ADD_DATE=\"" + Render(b.addDate) + "\">"
        + Render(b.title) + "</A>"
    case HeadingLine(d, name) => Indent(d) + "<DT><H3>" + name + "</H3>"
    case ListOpen(d) => Indent(d) + "<DL><p>"
    case ListClose(d) => Indent(d) + "</DL><p>"
  }

  /** The lines of `tree_to_html(n, depth)`: one link line per record of the
      node's bucket, then one block per sub-folder in insertion order. */
  function TreeLines(n: Node, depth: nat): seq<Line>
    decreases n, 1
  {
    LinkLines(n.bookmarks, depth) + Concat(FolderBlocks(n, depth))
  }

  /** The link lines of a bucket. */
  function LinkLines(bs: seq<Bookmark>, depth: nat): (r: seq<Line>)
    ensures |r| == |bs|
    ensures forall i :: 0 <= i < |bs| ==> r[i] == LinkLine(depth, bs[i])
  {
    seq(|bs|, i requires 0 <= i < |bs| => LinkLine(depth, bs[i]))
  }

  /** Per sub-folder: its heading, the opening of its list, its own lines one
      level deeper, and the closing of its list. */
  function FolderBlocks(n: Node, depth: nat): (r: seq<seq<Line>>)
    ensures |r| == |n.children|
    decreases n, 0
  {
    seq(|n.children|, i requires 0 <= i < |n.children| =>
      FolderBlock(n.children[i].0, TreeLines(n.children[i].1, depth + 1), depth))
  }

  function FolderBlock(name: string, inner: seq<Line>, depth: nat): seq<Line> {
    [HeadingLine(depth, name), ListOpen(depth)] + inner + [ListClose(depth)]
  }

  /** `tree_to_html(tree, indent)`. */
  function TreeToHtml(n: Node, indent: nat): seq<string> {
    RenderAll(TreeLines(n, indent))
  }

  function RenderAll(ls: seq<Line>): (r: seq<string>)
    ensures |r| == |ls|
    ensures forall i :: 0 <= i < |ls| ==> r[i] == RenderLine(ls[i])
  {
    seq(|ls|, i requires 0 <= i < |ls| => RenderLine(ls[i]))
  }

  lemma RenderAllAppend(a: seq<Line>, b: seq<Line>)
    ensures RenderAll(a + b) == RenderAll(a) + RenderAll(b)
  {
  }

  /** Each line written followed by a newline. */
  function JoinLines(ls: seq<string>): string
    decreases |ls|
  {
    if |ls| == 0 then "" else ls[0] + "\n" + JoinLines(ls[1..])
  }

  /** The document head: doctype, content-type declaration, title, heading and a blank line. */
  const Preamble: string :=
    "<!DOCTYPE NETSCAPE-Bookmark-file-1>\n"
    + "<META HTTP-EQUIV=\"Content-Type\" CONTENT=\"text/html; charset=UTF-8\">\n"
    + "<TITLE>Bookmarks</TITLE>\n"
    + "<H1>Bookmarks</H1>\n\n"

  /** `export_bookmarks(bookmarks, output_file)`: the text written to the file. */
  function ExportBookmarks(bookmarks: seq<Bookmark>): string {
    Preamble + "<DL><p>\n" + JoinLines(TreeToHtml(BuildTree(bookmarks), 1)) + "</DL><p>\n"
  }

  /** The lines of the whole list part of the document: the tree one level in,
      between an outer list opening and closing written at depth 0. */
  function DocumentLines(t: Node): seq<Line> {
    [ListOpen(0)] + TreeLines(t, 1) + [ListClose(0)]
  }

  lemma {:induction false} JoinLinesAppend(a: seq<string>, b: seq<string>)
    ensures JoinLines(a + b) == JoinLines(a) + JoinLines(b)
    decreases |a|
  {
    if |a| == 0 {
      AppendNil(a, b);
    } else {
      DropFirstAppend(a, b);
      JoinLinesAppend(a[1..], b);
    }
  }

  lemma OuterListLines()
    ensures RenderAll([ListOpen(0)]) == ["<DL><p>"]
    ensures RenderAll([ListClose(0)]) == ["</DL><p>"]
  {
    assert Indent(0) == "";
    assert RenderLine(ListOpen(0)) == "" + "<DL><p>" == "<DL><p>";
    assert RenderLine(ListClose(0)) == "" + "</DL><p>" == "</DL><p>";
  }

  lemma WrapJoin(body: seq<string>)
    ensures JoinLines(["<DL><p>"] + body + ["</DL><p>"]) == "<DL><p>\n" + JoinLines(body) + "</DL><p>\n"
  {
    JoinLinesAppend(["<DL><p>"] + body, ["</DL><p>"]);
    JoinLinesAppend(["<DL><p>"], body);
    assert JoinLines(["<DL><p>"]) == "<DL><p>\n";
    assert JoinLines(["</DL><p>"]) == "</DL><p>\n";
  }

  lemma DocumentRendering(t: Node)
    ensures RenderAll(DocumentLines(t)) == ["<DL><p>"] + TreeToHtml(t, 1) + ["</DL><p>"]
  {
    RenderAllAppend([ListOpen(0)] + TreeLines(t, 1), [ListClose(0)]);
    RenderAllAppend([ListOpen(0)], TreeLines(t, 1));
    OuterListLines();
  }

  /** The exported document is the preamble followed by the rendered document
      lines, one per text line. */
  lemma ExportIsDocumentLines(bookmarks: seq<Bookmark>)
    ensures ExportBookmarks(bookmarks) == Preamble + JoinLines(RenderAll(DocumentLines(BuildTree(bookmarks))))
  {
    var t := BuildTree(bookmarks);
    var body := JoinLines(TreeToHtml(t, 1));
    DocumentRendering(t);
    WrapJoin(TreeToHtml(t, 1));
    AppendAssoc(Preamble, "<DL><p>\n", body);
    AppendAssoc(Preamble, "<DL><p>\n" + body, "</DL><p>\n");
  }

  // ----- which rendered lines open and close lists -----

  predicate EndsWith(s: string, suffix: string) {
    |suffix| <= |s| && s[|s| - |suffix|..] == suffix
  }

  /** A rendered line closes a list exactly when it ends with `</DL><p>`, and
      opens one exactly when it ends with `<DL><p>` without the slash, whatever
      the text fields hold: link lines end with `</A>` and headings with `</H3>`. */
  lemma RenderedListLines(line: Line)
    ensures EndsWith(RenderLine(line), "</DL><p>") <==> line.ListClose?
    ensures (EndsWith(RenderLine(line), "<DL><p>") && !EndsWith(RenderLine(line), "</DL><p>"))
        <==> line.ListOpen?
  {
    var r := RenderLine(line);
    match line
    case LinkLine(d, b) =>
      assert r[|r| - 1] == '>' && r[|r| - 2] == 'A';
    case HeadingLine(d, name) =>
      assert r[|r| - 2] == '3';
    case ListOpen(d) =>
      if |r| >= 8 {
        assert r[|r| - 8..] == r[|r| - 8..|r| - 7] + "<DL><p>";
        assert r[|r| - 8] == ' ';
      }
    case ListClose(d) =>
  }

  // ----- list nesting -----

  /** Lists opened minus lists closed. */
  function Nesting(ls: seq<Line>): int
    decreases |ls|
  {
    if |ls| == 0 then 0
    else
      var last := ls[|ls| - 1];
      Nesting(ls[..|ls| - 1]) + (if last.ListOpen? then 1 else if last.ListClose? then -1 else 0)
  }

  /** Properly nested: every prefix closes no more lists than it opened, and the
      whole opens and closes the same number. */
  predicate Balanced(ls: seq<Line>) {
    && Nesting(ls) == 0
    && forall k :: 0 <= k <= |ls| ==> Nesting(ls[..k]) >= 0
  }

  lemma {:induction false} NestingAppend(a: seq<Line>, b: seq<Line>)
    ensures Nesting(a + b) == Nesting(a) + Nesting(b)
    decreases |b|
  {
    if |b| == 0 {
      AppendNil(a, b);
    } else {
      DropLastAppend(a, b);
      NestingAppend(a, b[..|b| - 1]);
    }
  }

  lemma BalancedAppend(a: seq<Line>, b: seq<Line>)
    requires Balanced(a) && Balanced(b)
    ensures Balanced(a + b)
  {
    NestingAppend(a, b);
    forall k | 0 <= k <= |a + b| ensures Nesting((a + b)[..k]) >= 0 {
      if k <= |a| {
        assert (a + b)[..k] == a[..k];
      } else {
        assert (a + b)[..k] == a + b[..k - |a|];
        NestingAppend(a, b[..k - |a|]);
      }
    }
  }

  lemma {:induction false} BalancedConcat(ss: seq<seq<Line>>)
    requires forall i :: 0 <= i < |ss| ==> Balanced(ss[i])
    ensures Balanced(Concat(ss))
    decreases |ss|
  {
    if |ss| == 0 {
      assert Nesting([]) == 0;
    } else {
      BalancedConcat(ss[1..]);
      BalancedAppend(ss[0], Concat(ss[1..]));
    }
  }

  lemma {:induction false} LinkLinesBalanced(bs: seq<Bookmark>, depth: nat)
    ensures Balanced(LinkLines(bs, depth))
    decreases |bs|
  {
    var ls := LinkLines(bs, depth);
    if |bs| > 0 {
      LinkLinesBalanced(bs[..|bs| - 1], depth);
      assert ls[..|ls| - 1] == LinkLines(bs[..|bs| - 1], depth);
      forall k | 0 <= k <= |ls| ensures Nesting(ls[..k]) >= 0 {
        if k < |ls| {
          assert ls[..k] == LinkLines(bs[..|bs| - 1], depth)[..k];
        } else {
          assert ls[..k] == ls;
        }
      }
    }
  }

  lemma BlockBalanced(name: string, inner: seq<Line>, depth: nat)
    requires Balanced(inner)
    ensures Balanced(FolderBlock(name, inner, depth))
  {
    var head := [HeadingLine(depth, name), ListOpen(depth)];
    var blk := FolderBlock(name, inner, depth);
    assert Nesting(head) == 1 by {
      assert head[..1] == [HeadingLine(depth, name)];
      assert Nesting([HeadingLine(depth, name)]) == 0;
    }
    NestingAppend(head, inner);
    NestingAppend(head + inner, [ListClose(depth)]);
    assert blk == head + inner + [ListClose(depth)];
    assert Nesting([ListClose(depth)]) == -1;
    forall k | 0 <= k <= |blk| ensures Nesting(blk[..k]) >= 0 {
      if k == 0 {
      } else if k == 1 {
        assert blk[..k] == [HeadingLine(depth, name)];
      } else if k <= 2 + |inner| {
        assert blk[..k] == head + inner[..k - 2];
        NestingAppend(head, inner[..k - 2]);
      } else {
        assert blk[..k] == blk;
      }
    }
  }

  /** The list openings and closings of `tree_to_html` are properly nested. */
  lemma {:induction false} TreeLinesBalanced(n: Node, depth: nat)
    ensures Balanced(TreeLines(n, depth))
    decreases n, 1
  {
    LinkLinesBalanced(n.bookmarks, depth);
    FolderBlocksBalanced(n, depth);
    BalancedConcat(FolderBlocks(n, depth));
    BalancedAppend(LinkLines(n.bookmarks, depth), Concat(FolderBlocks(n, depth)));
  }

  lemma {:induction false} FolderBlocksBalanced(n: Node, depth: nat)
    ensures forall i :: 0 <= i < |n.children| ==> Balanced(FolderBlocks(n, depth)[i])
    decreases n, 0
  {
    forall i | 0 <= i < |n.children| ensures Balanced(FolderBlocks(n, depth)[i]) {
      TreeLinesBalanced(n.children[i].1, depth + 1);
      BlockBalanced(n.children[i].0, TreeLines(n.children[i].1, depth + 1), depth);
    }
  }

  /** The whole list part of an exported document is properly nested too. */
  lemma DocumentBalanced(t: Node)
    ensures Balanced(DocumentLines(t))
  {
    TreeLinesBalanced(t, 1);
    BlockBalanced("", TreeLines(t, 1), 0);
    var blk := FolderBlock("", TreeLines(t, 1), 0);
    var doc := DocumentLines(t);
    assert blk == [HeadingLine(0, "")] + doc;
    NestingAppend([HeadingLine(0, "")], doc);
    assert Nesting([HeadingLine(0, "")]) == 0;
    forall k | 0 <= k <= |doc| ensures Nesting(doc[..k]) >= 0 {
      assert blk[..k + 1] == [HeadingLine(0, "")] + doc[..k];
      NestingAppend([HeadingLine(0, "")], doc[..k]);
    }
  }

  // ----- depth and order -----

  /** No line of `tree_to_html(n, depth)` is indented less than `depth`. */
  lemma {:induction false} TreeLinesDepth(n: Node, depth: nat)
    ensures forall i :: 0 <= i < |TreeLines(n, depth)| ==> TreeLines(n, depth)[i].depth >= depth
    decreases n, 1
  {
    var own := LinkLines(n.bookmarks, depth);
    var blocks: seq<seq<Line>> := FolderBlocks(n, depth);
    forall j | 0 <= j < |blocks|
      ensures forall i: int :: 0 <= i < |blocks[j]| ==> blocks[j][i].depth >= depth
    {
      TreeLinesDepth(n.children[j].1, depth + 1);
    }
    ConcatDepth(blocks, depth);
  }

  lemma {:induction false} ConcatDepth(ss: seq<seq<Line>>, depth: nat)
    requires forall j :: 0 <= j < |ss| ==> forall i :: 0 <= i < |ss[j]| ==> ss[j][i].depth >= depth
    ensures forall i :: 0 <= i < |Concat(ss)| ==> Concat(ss)[i].depth >= depth
    decreases |ss|
  {
    if |ss| > 0 {
      ConcatDepth(ss[1..], depth);
      assert Concat(ss) == ss[0] + Concat(ss[1..]);
    }
  }

  /** The node's own records come first, one link line each at the node's
      depth and in bucket order; every later line at that depth belongs to a
      sub-folder block (its heading, list opening or list closing). */
  lemma BucketFirst(n: Node, depth: nat)
    ensures |n.bookmarks| <= |TreeLines(n, depth)|
    ensures forall i :: 0 <= i < |n.bookmarks| ==> TreeLines(n, depth)[i] == LinkLine(depth, n.bookmarks[i])
    ensures forall i :: |n.bookmarks| <= i < |TreeLines(n, depth)| && TreeLines(n, depth)[i].depth == depth
              ==> !TreeLines(n, depth)[i].LinkLine?
  {
    var blocks: seq<seq<Line>> := FolderBlocks(n, depth);
    var rest := Concat(blocks);
    forall j | 0 <= j < |blocks|
      ensures forall i: int :: 0 <= i < |blocks[j]| && blocks[j][i].depth == depth ==> !blocks[j][i].LinkLine?
    {
      var inner := TreeLines(n.children[j].1, depth + 1);
      TreeLinesDepth(n.children[j].1, depth + 1);
      assert blocks[j] == [HeadingLine(depth, n.children[j].0), ListOpen(depth)] + inner + [ListClose(depth)];
      assert forall i :: 2 <= i < 2 + |inner| ==> blocks[j][i] == inner[i - 2];
    }
    ConcatNoLinkAt(blocks, depth);
  }

  lemma {:induction false} ConcatNoLinkAt(ss: seq<seq<Line>>, depth: nat)
    requires forall j :: 0 <= j < |ss| ==>
      forall i :: 0 <= i < |ss[j]| && ss[j][i].depth == depth ==> !ss[j][i].LinkLine?
    ensures forall i :: 0 <= i < |Concat(ss)| && Concat(ss)[i].depth == depth ==> !Concat(ss)[i].LinkLine?
    decreases |ss|
  {
    if |ss| > 0 {
      ConcatNoLinkAt(ss[1..], depth);
      assert Concat(ss) == ss[0] + Concat(ss[1..]);
    }
  }
}
