/** Reading back what the exporter writes. The tokenizer is not modelled: for
    each exported line, `LineEvents` lists the handler calls an HTML tokenizer
    makes for that line's text when the text fields contain no markup
    characters (`<`, `>`, `&`, `"`). With those events, parsing an exported
    tree gives back its records in document order, each in its own folder;
    for `build_tree`'s output that is the input, regrouped folder by folder. */
module RoundTrip {
  import opened Records
  import opened Text
  import opened Seqs
  import opened FolderTree
  import opened HtmlParser
  import opened HtmlExport
  import Merge

  // ----- what the exporter can write so that it reads back -----

  /** No character the tokenizer would read as markup or as a character reference. */
  predicate NoMarkup(s: string) {
    forall i :: 0 <= i < |s| ==> s[i] != '<' && s[i] != '>' && s[i] != '&' && s[i] != '"'
  }

  /** A folder name the parser reads back as itself: non-empty (empty names are
      dropped from paths), without surrounding whitespace (headings are
      stripped) and without markup. */
  predicate CleanName(s: string) {
    s != "" && Trimmed(s) && NoMarkup(s)
  }

  /** A record the parser reads back as itself: every text field present (a
      missing one is written as the word None), the title without surrounding
      whitespace, and no markup anywhere. */
  predicate CleanRecord(b: Bookmark) {
    && b.title.Some? && Trimmed(b.title.value) && NoMarkup(b.title.value)
    && b.url.Some? && NoMarkup(b.url.value)
    && b.addDate.Some? && NoMarkup(b.addDate.value)
    && forall i :: 0 <= i < |b.folder| ==> CleanName(b.folder[i])
  }

  predicate CleanTree(n: Node)
    decreases n
  {
    && (forall i :: 0 <= i < |n.bookmarks| ==> CleanRecord(n.bookmarks[i]))
    && forall i :: 0 <= i < |n.children| ==> CleanName(n.children[i].0) && CleanTree(n.children[i].1)
  }

  // ----- the events of the exported text -----

  /** The attributes of an exported link, as the tokenizer reports them
      (attribute names in lower case, values as written). */
  function LinkAttrs(b: Bookmark): seq<(string, Option<string>)> {
    [("href", Some(Render(b.url))), ("add_date", Some(Render(b.addDate)))]
  }

  /** The tags and text of one line, between its indentation and its newline. */
  function LineTags(line: Line): seq<Event> {
    match line
    case LinkLine(_, b) => [StartTag("dt", [])] + LinkEvents(LinkAttrs(b), Render(b.title))
    case HeadingLine(_, name) => [StartTag("dt", [])] + HeadingEvents(name)
    case ListOpen(_) => OpenListEvents()
    case ListClose(_) => CloseListEvents()
  }

  /** The events of one rendered line followed by its newline. */
  function LineEvents(line: Line): seq<Event> {
    [Data(Indent(line.depth))] + LineTags(line) + [Data("\n")]
  }

  function LinesEvents(ls: seq<Line>): seq<Event>
    decreases |ls|
  {
    if |ls| == 0 then [] else LineEvents(ls[0]) + LinesEvents(ls[1..])
  }

  /** The events of the preamble: the doctype declaration reaches none of the
      three handlers; `meta`, `title` and `h1` are tags the parser ignores. */
  function PreambleEvents(): seq<Event> {
    [ Data("\n"),
      StartTag("meta", [("http-equiv", Some("Content-Type")), ("content", Some("text/html; charset=UTF-8"))]),
      Data("\n"),
      StartTag("title", []), Data("Bookmarks"), EndTag("title"), Data("\n"),
      StartTag("h1", []), Data("Bookmarks"), EndTag("h1"), Data("\n\n") ]
  }

  /** The events of a whole exported document for tree `t`. */
  function DocumentEvents(t: Node): seq<Event> {
    PreambleEvents() + LinesEvents(DocumentLines(t))
  }

  // ----- the parser on each kind of line -----

  lemma PreambleTagsInert()
    ensures forall i :: 0 <= i < |PreambleEvents()| ==> Inert(PreambleEvents()[i])
  {
    LowerOfLower("meta");
    LowerOfLower("title");
    LowerOfLower("h1");
  }

  /** The preamble leaves a fresh parser as it was. */
  lemma PreambleRun()
    ensures Run(Init(), PreambleEvents()) == Init()
  {
    PreambleTagsInert();
    InertRun(Init(), PreambleEvents());
  }

  /** An idle parser ignores the text around a line's tags. */
  lemma IdleAround(s: State, x: string, body: seq<Event>, y: string)
    requires Valid(s) && s.currentTag == NoTag
    requires Run(s, body).currentTag == NoTag
    ensures Run(s, [Data(x)] + body + [Data(y)]) == Run(s, body)
  {
    RunAppend(s, [Data(x)] + body, [Data(y)]);
    RunAppend(s, [Data(x)], body);
    RunOne(s, Data(x));
    RunOne(Run(s, body), Data(y));
  }

  lemma IdleBefore(s: State, body: seq<Event>)
    requires Valid(s) && s.currentTag == NoTag
    ensures Run(s, [StartTag("dt", [])] + body) == Run(s, body)
  {
    RunAppend(s, [StartTag("dt", [])], body);
    RunOne(s, StartTag("dt", []));
    StepOther(s, "dt");
  }

  /** An idle parser ignores a line's indentation and newline: only its tags count. */
  lemma IdleLine(s: State, line: Line)
    requires Valid(s) && s.currentTag == NoTag
    requires Run(s, LineTags(line)).currentTag == NoTag
    ensures Run(s, LineEvents(line)) == Run(s, LineTags(line))
  {
    IdleAround(s, Indent(line.depth), LineTags(line), "\n");
  }

  /** The record a link line reads back as. */
  function ReadLink(s: State, b: Bookmark): Bookmark {
    LinkRecord(s.(currentData := Render(b.title), currentAttrs := AttrMap(LinkAttrs(b))))
  }

  lemma LinkLineRun(s: State, d: nat, b: Bookmark)
    requires Valid(s) && s.currentTag == NoTag
    ensures var r := Run(s, LineEvents(LinkLine(d, b)));
      r.stack == s.stack && r.currentTag == NoTag && r.bookmarks == s.bookmarks + [ReadLink(s, b)]
  {
    var body := LinkEvents(LinkAttrs(b), Render(b.title));
    LinkRun(s, LinkAttrs(b), Render(b.title));
    IdleBefore(s, body);
    IdleAround(s, Indent(d), [StartTag("dt", [])] + body, "\n");
  }

  lemma HeadingLineRun(s: State, d: nat, name: string)
    requires Valid(s) && s.currentTag == NoTag
    ensures var r := Run(s, LineEvents(HeadingLine(d, name)));
      && r.stack == s.stack[..|s.stack| - 1] + [Some(Strip(name))]
      && r.currentTag == NoTag && r.bookmarks == s.bookmarks
  {
    var body := HeadingEvents(name);
    HeadingRun(s, name);
    IdleBefore(s, body);
    IdleAround(s, Indent(d), [StartTag("dt", [])] + body, "\n");
  }

  lemma OpenLineRun(s: State, d: nat)
    requires Valid(s) && s.currentTag == NoTag
    ensures Run(s, LineEvents(ListOpen(d))) == s.(stack := s.stack + [None])
  {
    OpenListRun(s);
    IdleLine(s, ListOpen(d));
  }

  lemma CloseLineRun(s: State, d: nat)
    requires Valid(s) && s.currentTag == NoTag
    ensures Run(s, LineEvents(ListClose(d))) == if |s.stack| > 1 then s.(stack := s.stack[..|s.stack| - 1]) else s
  {
    CloseListRun(s);
    IdleLine(s, ListClose(d));
  }

  /** The two link attributes, looked up. */
  lemma LinkAttrsLookup(b: Bookmark)
    ensures GetAttr(AttrMap(LinkAttrs(b)), "href", None) == Some(Render(b.url))
    ensures GetAttr(AttrMap(LinkAttrs(b)), "add_date", Some("")) == Some(Render(b.addDate))
  {
    LowerTags();
    var attrs := LinkAttrs(b);
    assert attrs[..1] == [("href", Some(Render(b.url)))];
    assert attrs[..1][..0] == [];
    assert |"href"| != |"add_date"|;
  }

  /** A clean record's link line reads back as the record, filed under the
      names on the stack. */
  lemma ReadCleanLink(s: State, b: Bookmark)
    requires CleanRecord(b)
    ensures ReadLink(s, b) == b.(folder := FolderPath(s.stack))
  {
    LinkAttrsLookup(b);
    StripTrimmed(b.title.value);
  }

  /** A clean record's link line appends the record, filed under the stack's names. */
  lemma CleanLinkLineRun(s: State, d: nat, b: Bookmark)
    requires Valid(s) && s.currentTag == NoTag && CleanRecord(b)
    ensures var r := Run(s, LineEvents(LinkLine(d, b)));
      r.stack == s.stack && r.currentTag == NoTag && r.bookmarks == s.bookmarks + [b.(folder := FolderPath(s.stack))]
  {
    LinkLineRun(s, d, b);
    ReadCleanLink(s, b);
  }

  // ----- the parser between lines -----

  /** The part of the parser's state that an exported line can change: the
      stack of open lists and the records read so far. Between lines the
      parser is idle, so nothing else matters there. */
  datatype Reading = Reading(stack: seq<Option<string>>, records: seq<Bookmark>)

  function View(s: State): Reading {
    Reading(s.stack, s.bookmarks)
  }

  /** A line the parser reads back as written: a link line's record is clean. */
  predicate CleanLine(line: Line) {
    line.LinkLine? ==> CleanRecord(line.b)
  }

  predicate CleanLines(ls: seq<Line>) {
    forall i :: 0 <= i < |ls| ==> CleanLine(ls[i])
  }

  /** What the parser makes of one clean exported line. */
  function ReadLine(a: Reading, line: Line): Reading {
    match line
    case LinkLine(_, b) => a.(records := a.records + [b.(folder := FolderPath(a.stack))])
    case HeadingLine(_, name) =>
      if |a.stack| == 0 then a else a.(stack := a.stack[..|a.stack| - 1] + [Some(Strip(name))])
    case ListOpen(_) => a.(stack := a.stack + [None])
    case ListClose(_) => if |a.stack| > 1 then a.(stack := a.stack[..|a.stack| - 1]) else a
  }

  function ReadLines(a: Reading, ls: seq<Line>): Reading
    decreases |ls|
  {
    if |ls| == 0 then a else ReadLines(ReadLine(a, ls[0]), ls[1..])
  }

  /** An idle parser reads a clean line as `ReadLine` says, and is idle again. */
  lemma RunLine(s: State, line: Line)
    requires Valid(s) && s.currentTag == NoTag && CleanLine(line)
    ensures var r := Run(s, LineEvents(line));
      r.currentTag == NoTag && View(r) == ReadLine(View(s), line)
  {
    match line
    case LinkLine(d, b) => CleanLinkLineRun(s, d, b);
    case HeadingLine(d, name) => HeadingLineRun(s, d, name);
    case ListOpen(d) => OpenLineRun(s, d);
    case ListClose(d) => CloseLineRun(s, d);
  }

  /** An idle parser reads clean lines as `ReadLines` says. */
  lemma {:induction false} RunLines(s: State, ls: seq<Line>)
    requires Valid(s) && s.currentTag == NoTag && CleanLines(ls)
    ensures var r := Run(s, LinesEvents(ls));
      r.currentTag == NoTag && View(r) == ReadLines(View(s), ls)
    decreases |ls|
  {
    if |ls| > 0 {
      var e1 := LineEvents(ls[0]);
      RunAppend(s, e1, LinesEvents(ls[1..]));
      RunLine(s, ls[0]);
      assert CleanLines(ls[1..]) by {
        forall i | 0 <= i < |ls[1..]| ensures CleanLine(ls[1..][i]) {
          assert ls[1..][i] == ls[i + 1];
        }
      }
      RunLines(Run(s, e1), ls[1..]);
    }
  }

  lemma {:induction false} ReadLinesAppend(a: Reading, x: seq<Line>, y: seq<Line>)
    ensures ReadLines(a, x + y) == ReadLines(ReadLines(a, x), y)
    decreases |x|
  {
    if |x| == 0 {
      AppendNil(x, y);
    } else {
      DropFirstAppend(x, y);
      ReadLinesAppend(ReadLine(a, x[0]), x[1..], y);
    }
  }

  lemma ReadLinesOne(a: Reading, line: Line)
    ensures ReadLines(a, [line]) == ReadLine(a, line)
  {
    assert [line][1..] == [];
  }

  // ----- which exported lines are clean -----

  lemma {:induction false} CleanConcat(ss: seq<seq<Line>>)
    requires forall j :: 0 <= j < |ss| ==> CleanLines(ss[j])
    ensures CleanLines(Concat(ss))
    decreases |ss|
  {
    if |ss| > 0 {
      CleanConcat(ss[1..]);
      assert Concat(ss) == ss[0] + Concat(ss[1..]);
    }
  }

  /** Every record line exported for a clean tree is clean. */
  lemma {:induction false} TreeLinesClean(n: Node, d: nat)
    requires CleanTree(n)
    ensures CleanLines(TreeLines(n, d))
    decreases n, 1
  {
    var blocks: seq<seq<Line>> := FolderBlocks(n, d);
    forall j | 0 <= j < |blocks| ensures CleanLines(blocks[j]) {
      TreeLinesClean(n.children[j].1, d + 1);
      assert blocks[j] == [HeadingLine(d, n.children[j].0), ListOpen(d)] + TreeLines(n.children[j].1, d + 1) + [ListClose(d)];
    }
    CleanConcat(blocks);
  }

  lemma DocumentLinesClean(t: Node)
    requires CleanTree(t)
    ensures CleanLines(DocumentLines(t))
  {
    TreeLinesClean(t, 1);
  }

  // ----- the lines of a whole exported tree -----

  /** Where the lines of a node start: the node's own list on top of the
      stack and still unnamed, and the names below it spelling the node's path. */
  predicate AtNode(a: Reading, p: seq<string>) {
    && |a.stack| >= 1
    && FolderPath(a.stack[..|a.stack| - 1]) == p
    && a.stack[|a.stack| - 1] == None
  }

  /** What the lines of a node (or of a run of its folder blocks) leave behind:
      the stack as high as before with everything below the top untouched, and
      `added` appended to the records. */
  predicate Left(a: Reading, r: Reading, added: seq<Bookmark>) {
    && |a.stack| >= 1
    && |r.stack| == |a.stack|
    && r.stack[..|a.stack| - 1] == a.stack[..|a.stack| - 1]
    && r.records == a.records + added
  }

  lemma RelabelSplit(bs: seq<Bookmark>, p: seq<string>)
    requires |bs| > 0
    ensures Relabel(bs, p) == [bs[0].(folder := p)] + Relabel(bs[1..], p)
  {
  }

  lemma LinkLineRead(a: Reading, d: nat, b: Bookmark)
    ensures ReadLine(a, LinkLine(d, b)) == a.(records := a.records + [b.(folder := FolderPath(a.stack))])
  {
  }

  lemma HeadingLineRead(a: Reading, d: nat, name: string)
    requires |a.stack| >= 1 && Trimmed(name)
    ensures ReadLine(a, HeadingLine(d, name)) == a.(stack := a.stack[..|a.stack| - 1] + [Some(name)])
  {
    StripTrimmed(name);
  }

  lemma OpenLineRead(a: Reading, d: nat)
    ensures ReadLine(a, ListOpen(d)) == a.(stack := a.stack + [None])
  {
  }

  lemma CloseLineRead(a: Reading, d: nat)
    requires |a.stack| > 1
    ensures ReadLine(a, ListClose(d)) == a.(stack := a.stack[..|a.stack| - 1])
  {
  }

  lemma LinkLinesCons(bs: seq<Bookmark>, d: nat)
    requires |bs| > 0
    ensures LinkLines(bs, d) == [LinkLine(d, bs[0])] + LinkLines(bs[1..], d)
  {
  }

  /** The link lines of a bucket append the bucket's records, each filed under
      the names on the stack, and leave the stack alone. */
  lemma {:induction false} BucketRead(a: Reading, bs: seq<Bookmark>, d: nat)
    ensures ReadLines(a, LinkLines(bs, d)).stack == a.stack
    ensures ReadLines(a, LinkLines(bs, d)).records == a.records + Relabel(bs, FolderPath(a.stack))
    decreases |bs|
  {
    if |bs| > 0 {
      var a1 := a.(records := a.records + [bs[0].(folder := FolderPath(a.stack))]);
      LinkLinesCons(bs, d);
      ReadLinesAppend(a, [LinkLine(d, bs[0])], LinkLines(bs[1..], d));
      ReadLinesOne(a, LinkLine(d, bs[0]));
      LinkLineRead(a, d, bs[0]);
      BucketRead(a1, bs[1..], d);
      RelabelSplit(bs, FolderPath(a.stack));
      AppendAssoc(a.records, [bs[0].(folder := FolderPath(a.stack))], Relabel(bs[1..], FolderPath(a.stack)));
    } else {
      assert Relabel(bs, FolderPath(a.stack)) == [];
    }
  }

  /** The lines of a clean node, read from its starting state, append exactly
      the node's records in document order, each filed under its path. */
  lemma {:induction false} NodeRead(n: Node, d: nat, a: Reading, p: seq<string>)
    requires CleanTree(n) && AtNode(a, p)
    ensures Left(a, ReadLines(a, TreeLines(n, d)), Flatten(n, p))
    decreases n, 1
  {
    var own := LinkLines(n.bookmarks, d);
    var blocks := FolderBlocks(n, d);
    var flat := FlattenChildren(n, p);
    AtNodePath(a, p);
    BucketRead(a, n.bookmarks, d);
    var a1 := ReadLines(a, own);
    assert Left(a, a1, Relabel(n.bookmarks, p));
    assert blocks[0..] == blocks;
    assert flat[0..] == flat;
    BlocksRead(n, d, 0, a1, p);
    ReadLinesAppend(a, own, Concat(blocks));
    LeftTrans(a, a1, ReadLines(a1, Concat(blocks)), Relabel(n.bookmarks, p), Concat(flat));
  }

  /** The names on the stack, the unnamed top included, are the node's path. */
  lemma AtNodePath(a: Reading, p: seq<string>)
    requires AtNode(a, p)
    ensures FolderPath(a.stack) == p
  {
    FolderPathPush(a.stack[..|a.stack| - 1], None);
    SnocSplit(a.stack);
  }

  /** The folder blocks of a clean node from the `k`-th on, read with the
      node's path below the top of the stack. */
  lemma {:induction false} BlocksRead(n: Node, d: nat, k: nat, a: Reading, p: seq<string>)
    requires CleanTree(n) && k <= |n.children|
    requires |a.stack| >= 1 && FolderPath(a.stack[..|a.stack| - 1]) == p
    ensures Left(a, ReadLines(a, Concat(FolderBlocks(n, d)[k..])), Concat(FlattenChildren(n, p)[k..]))
    decreases n, 0, |n.children| - k
  {
    var blocks := FolderBlocks(n, d);
    var flat := FlattenChildren(n, p);
    if k == |n.children| {
      assert blocks[k..] == [];
      assert flat[k..] == [];
    } else {
      ConcatDrop(blocks, k);
      ConcatDrop(flat, k);
      ReadLinesAppend(a, blocks[k], Concat(blocks[k + 1..]));
      BlockRead(n, d, k, a, p);
      var a1 := ReadLines(a, blocks[k]);
      BlocksRead(n, d, k + 1, a1, p);
      LeftTrans(a, a1, ReadLines(a1, Concat(blocks[k + 1..])), flat[k], Concat(flat[k + 1..]));
    }
  }

  lemma ConcatDrop<T>(ss: seq<seq<T>>, k: nat)
    requires k < |ss|
    ensures Concat(ss[k..]) == ss[k] + Concat(ss[k + 1..])
  {
    assert ss[k..][1..] == ss[k + 1..];
  }

  lemma LeftTrans(a: Reading, a1: Reading, a2: Reading, x: seq<Bookmark>, y: seq<Bookmark>)
    requires Left(a, a1, x) && Left(a1, a2, y)
    ensures Left(a, a2, x + y)
  {
    assert a1.stack[..|a.stack| - 1] == a.stack[..|a.stack| - 1];
  }

  /** One folder block: the heading names the list on top of the stack, the
      sub-folder's list is pushed, read and popped again. */
  lemma {:induction false} BlockRead(n: Node, d: nat, k: nat, a: Reading, p: seq<string>)
    requires CleanTree(n) && k < |n.children|
    requires |a.stack| >= 1 && FolderPath(a.stack[..|a.stack| - 1]) == p
    ensures var r := ReadLines(a, FolderBlocks(n, d)[k]);
      && Left(a, r, FlattenChildren(n, p)[k])
      && FolderPath(r.stack[..|a.stack| - 1]) == p
    decreases n, 0, |n.children| - k, 0
  {
    var name := n.children[k].0;
    var c := n.children[k].1;
    var inner := TreeLines(c, d + 1);
    var m := |a.stack|;
    var hl := HeadingLine(d, name);
    assert FolderBlocks(n, d)[k] == [hl] + [ListOpen(d)] + inner + [ListClose(d)];
    ReadLinesAppend(a, [hl] + [ListOpen(d)] + inner, [ListClose(d)]);
    ReadLinesAppend(a, [hl] + [ListOpen(d)], inner);
    ReadLinesAppend(a, [hl], [ListOpen(d)]);
    // the heading names the list on top
    ReadLinesOne(a, hl);
    HeadingLineRead(a, d, name);
    var a1 := a.(stack := a.stack[..m - 1] + [Some(name)]);
    // the sub-folder's list is pushed
    ReadLinesOne(a1, ListOpen(d));
    OpenLineRead(a1, d);
    var a2 := a1.(stack := a1.stack + [None]);
    assert ReadLines(a, [hl] + [ListOpen(d)]) == a2;
    assert a2.stack[..|a2.stack| - 1] == a1.stack;
    FolderPathPush(a.stack[..m - 1], Some(name));
    // read, and popped again
    NodeRead(c, d + 1, a2, p + [name]);
    var a3 := ReadLines(a2, inner);
    ReadLinesOne(a3, ListClose(d));
    CloseLineRead(a3, d);
    var a4 := a3.(stack := a3.stack[..|a3.stack| - 1]);
    assert a4.stack == a1.stack;
    assert a4.stack[..m - 1] == a.stack[..m - 1];
  }

  /** The lines of an exported document, read from a fresh parser. */
  lemma DocumentRead(t: Node)
    requires CleanTree(t)
    ensures ReadLines(Reading([None], []), DocumentLines(t)).records == Flatten(t, [])
  {
    var a0 := Reading([None], []);
    var body := TreeLines(t, 1);
    ReadLinesAppend(a0, [ListOpen(0)] + body, [ListClose(0)]);
    ReadLinesAppend(a0, [ListOpen(0)], body);
    ReadLinesOne(a0, ListOpen(0));
    OpenLineRead(a0, 0);
    var a1 := Reading([None, None], []);
    assert [None] + [None] == a1.stack;
    assert ReadLines(a0, [ListOpen(0)]) == a1;
    assert FolderPath(a1.stack[..1]) == [] by {
      assert a1.stack[..1] == [] + [None];
      FolderPathPush([], None);
    }
    NodeRead(t, 1, a1, []);
    var a2 := ReadLines(a1, body);
    ReadLinesOne(a2, ListClose(0));
    CloseLineRead(a2, 0);
    assert ReadLines(a0, DocumentLines(t)) == ReadLine(a2, ListClose(0));
  }

  /** The document exported for a clean tree parses back to the tree's records
      in document order, each filed under the path of its node. */
  lemma DocumentRoundTrip(t: Node)
    requires CleanTree(t)
    ensures Parse(DocumentEvents(t)) == Flatten(t, [])
  {
    var lines := DocumentLines(t);
    RunAppend(Init(), PreambleEvents(), LinesEvents(lines));
    PreambleRun();
    DocumentLinesClean(t);
    RunLines(Init(), lines);
    DocumentRead(t);
  }

  // ----- export of `build_tree`'s output -----

  lemma {:induction false} InsertClean(n: Node, q: seq<string>, b: Bookmark)
    requires CleanTree(n) && CleanRecord(b)
    requires forall i :: 0 <= i < |q| ==> CleanName(q[i])
    ensures CleanTree(Insert(n, q, b))
    decreases |q|
  {
    if |q| > 0 {
      var i := ChildIndex(n.children, q[0]);
      if i < |n.children| {
        InsertClean(n.children[i].1, q[1..], b);
      } else {
        InsertClean(EmptyNode(), q[1..], b);
      }
    }
  }

  lemma {:induction false} BuildTreeClean(l: seq<Bookmark>)
    requires forall i :: 0 <= i < |l| ==> CleanRecord(l[i])
    ensures CleanTree(BuildTree(l))
    decreases |l|
  {
    if |l| > 0 {
      BuildTreeClean(l[..|l| - 1]);
      InsertClean(BuildTree(l[..|l| - 1]), l[|l| - 1].folder, l[|l| - 1]);
    }
  }

  /** Exporting clean records and parsing the document back gives, folder by
      folder, the input records in input order, and overall a permutation of
      the input: only the grouping by folder changes. */
  lemma ExportRoundTrip(l: seq<Bookmark>, p: seq<string>)
    requires forall i :: 0 <= i < |l| ==> CleanRecord(l[i])
    ensures InFolder(Parse(DocumentEvents(BuildTree(l))), p) == InFolder(l, p)
    ensures multiset(Parse(DocumentEvents(BuildTree(l)))) == multiset(l)
  {
    BuildTreeClean(l);
    DocumentRoundTrip(BuildTree(l));
    BuildTreeFlattenInFolder(l, p);
    BuildTreePermutation(l);
  }

  /** The whole tool on clean inputs: the merged list written out and read
      back holds, folder by folder, the merged records in merge order. */
  lemma SyncRoundTrip(list1: seq<Bookmark>, list2: seq<Bookmark>, p: seq<string>)
    requires forall i :: 0 <= i < |list1| ==> CleanRecord(list1[i])
    requires forall i :: 0 <= i < |list2| ==> CleanRecord(list2[i])
    ensures var merged := Merge.Merge(list1, list2);
      && InFolder(Parse(DocumentEvents(BuildTree(merged))), p) == InFolder(merged, p)
      && multiset(Parse(DocumentEvents(BuildTree(merged)))) == multiset(merged)
  {
    var all := list1 + list2;
    var merged := Merge.Merge(list1, list2);
    var idx := Merge.DedupSelectsFirstOccurrences(all);
    forall i | 0 <= i < |merged| ensures CleanRecord(merged[i]) {
      var j := idx[i];
      if j < |list1| {
        assert all[j] == list1[j];
      } else {
        assert all[j] == list2[j - |list1|];
      }
    }
    ExportRoundTrip(merged, p);
  }
}
