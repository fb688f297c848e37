/** The bookmark HTML parser (`BookmarkHTMLParser`): a state machine driven by the
    tag and text events an HTML tokenizer delivers, keeping a stack of folder
    contexts, the tag whose text is being collected, that text, and the
    attributes of the last link. */
module HtmlParser {
  import opened Records
  import opened Text
  import opened Seqs

  /** What the tokenizer hands to the three handlers. Attribute values are
      `None` for an attribute written without a value. */
  datatype Event =
    | StartTag(tag: string, attrs: seq<(string, Option<string>)>)
    | EndTag(tag: string)
    | Data(text: string)

  /** `current_tag`: nothing, an open `<h3>` or an open `<a>`. */
  datatype Pending = NoTag | PendingH3 | PendingA

  /** The parser's fields. `stack` holds the name of each folder context, the
      root context first; a context's name is `None` until a heading names it. */
  datatype State = State(
    stack: seq<Option<string>>,
    bookmarks: seq<Bookmark>,
    currentTag: Pending,
    currentData: string,
    currentAttrs: map<string, Option<string>>)

  /** The state `__init__` sets up: one unnamed root context and nothing else. */
  function Init(): State {
    State([None], [], NoTag, "", map[])
  }

  /** The stack is never empty. */
  predicate Valid(s: State) {
    |s.stack| >= 1
  }

  /** `{k.lower(): v for k, v in attrs}`: later attributes overwrite earlier ones
      with the same lower-cased name. */
  function AttrMap(attrs: seq<(string, Option<string>)>): (m: map<string, Option<string>>)
    ensures forall k :: k in m <==> exists i :: 0 <= i < |attrs| && Lower(attrs[i].0) == k
    decreases |attrs|
  {
    if |attrs| == 0 then map[]
    else
      var pre := attrs[..|attrs| - 1];
      var last := attrs[|attrs| - 1];
      var m := AttrMap(pre)[Lower(last.0) := last.1];
      assert forall i :: 0 <= i < |pre| ==> pre[i] == attrs[i];
      m
  }

  /** The attribute map keeps, for each lower-cased name, the value of the last
      attribute with that name. */
  lemma {:induction false} AttrMapLastWins(attrs: seq<(string, Option<string>)>, i: int)
    requires 0 <= i < |attrs|
    requires forall j :: i < j < |attrs| ==> Lower(attrs[j].0) != Lower(attrs[i].0)
    ensures Lower(attrs[i].0) in AttrMap(attrs)
    ensures AttrMap(attrs)[Lower(attrs[i].0)] == attrs[i].1
    decreases |attrs|
  {
    if i < |attrs| - 1 {
      AttrMapLastWins(attrs[..|attrs| - 1], i);
    }
  }

  /** `dict.get(key, default)`. */
  function GetAttr(m: map<string, Option<string>>, key: string, default: Option<string>): Option<string> {
    if key in m then m[key] else default
  }

  /** `[d["name"] for d in self.stack if d.get("name")]`: the names of the stack
      contexts that are set and non-empty, bottom to top. */
  function FolderPath(stack: seq<Option<string>>): (p: seq<string>)
    ensures |p| <= |stack|
    ensures forall i :: 0 <= i < |p| ==> p[i] != ""
    decreases |stack|
  {
    if |stack| == 0 then []
    else
      var top := stack[|stack| - 1];
      FolderPath(stack[..|stack| - 1]) + (if top.Some? && top.value != "" then [top.value] else [])
  }

  /** The tags the handlers tell apart: `dl`, `h3`, `a` and any other, compared
      after lower-casing (`KindOfSpec`). */
  datatype TagKind = DlTag | H3Tag | ATag | OtherTag

  function KindOf(tag: string): TagKind {
    if |tag| == 2 && LowerChar(tag[0]) == 'd' && LowerChar(tag[1]) == 'l' then DlTag
    else if |tag| == 2 && LowerChar(tag[0]) == 'h' && LowerChar(tag[1]) == '3' then H3Tag
    else if |tag| == 1 && LowerChar(tag[0]) == 'a' then ATag
    else OtherTag
  }

  /** `KindOf` is the comparison of `tag.lower()` with each of the three names. */
  lemma KindOfSpec(tag: string)
    ensures KindOf(tag) == DlTag <==> Lower(tag) == "dl"
    ensures KindOf(tag) == H3Tag <==> Lower(tag) == "h3"
    ensures KindOf(tag) == ATag <==> Lower(tag) == "a"
  {
    var t := Lower(tag);
    if |tag| == 2 {
      assert t == [t[0], t[1]];
    } else if |tag| == 1 {
      assert t == [t[0]];
    }
  }

  /** `handle_starttag`. */
  function HandleStartTag(s: State, tag: string, attrs: seq<(string, Option<string>)>): State {
    match KindOf(tag)
    case DlTag => s.(stack := s.stack + [None])
    case H3Tag => s.(currentTag := PendingH3, currentData := "")
    case ATag => s.(currentTag := PendingA, currentData := "", currentAttrs := AttrMap(attrs))
    case OtherTag => s
  }

  /** The record `handle_endtag` emits for a closing `</a>`. */
  function LinkRecord(s: State): Bookmark {
    Bookmark(
      Some(Strip(s.currentData)),
      GetAttr(s.currentAttrs, "href", None),
      FolderPath(s.stack),
      GetAttr(s.currentAttrs, "add_date", Some("")))
  }

  /** `handle_endtag`. */
  function HandleEndTag(s: State, tag: string): State
    requires Valid(s)
  {
    match KindOf(tag)
    case DlTag =>
      if |s.stack| > 1 then s.(stack := s.stack[..|s.stack| - 1]) else s
    case H3Tag =>
      if s.currentTag == PendingH3 then
        s.(stack := s.stack[..|s.stack| - 1] + [Some(Strip(s.currentData))], currentTag := NoTag)
      else s
    case ATag =>
      if s.currentTag == PendingA then s.(bookmarks := s.bookmarks + [LinkRecord(s)], currentTag := NoTag)
      else s
    case OtherTag => s
  }

  /** `handle_data`. */
  function HandleData(s: State, data: string): State {
    if s.currentTag == PendingH3 || s.currentTag == PendingA then s.(currentData := s.currentData + data)
    else s
  }

  /** One event dispatched to its handler. */
  function Step(s: State, e: Event): (r: State)
    requires Valid(s)
    ensures Valid(r)
  {
    match e
    case StartTag(tag, attrs) => HandleStartTag(s, tag, attrs)
    case EndTag(tag) => HandleEndTag(s, tag)
    case Data(text) => HandleData(s, text)
  }

  predicate IsPrefixOf<T(==)>(a: seq<T>, b: seq<T>) {
    |a| <= |b| && b[..|a|] == a
  }

  /** `feed`: the events handled in order. Records are only ever appended, so the
      ones present before are kept, and the stack stays non-empty throughout. */
  function Run(s: State, es: seq<Event>): (r: State)
    requires Valid(s)
    ensures Valid(r)
    decreases |es|
  {
    if |es| == 0 then s else Run(Step(s, es[0]), es[1..])
  }

  /** `parse_bookmarks_html` after tokenization: the records of a document's events. */
  function Parse(es: seq<Event>): seq<Bookmark> {
    Run(Init(), es).bookmarks
  }

  /** Handling two event streams one after the other is handling their concatenation. */
  lemma {:induction false} RunAppend(s: State, a: seq<Event>, b: seq<Event>)
    requires Valid(s)
    ensures Run(s, a + b) == Run(Run(s, a), b)
    decreases |a|
  {
    if |a| == 0 {
      AppendNil(a, b);
    } else {
      DropFirstAppend(a, b);
      RunAppend(Step(s, a[0]), a[1..], b);
    }
  }

  lemma RunOne(s: State, e: Event)
    requires Valid(s)
    ensures Run(s, [e]) == Step(s, e)
  {
    assert [e][1..] == [];
  }

  lemma RunCons(s: State, e: Event, es: seq<Event>)
    requires Valid(s)
    ensures Run(s, [e] + es) == Run(Step(s, e), es)
  {
    assert ([e] + es)[1..] == es;
  }

  /** Folder paths skip unnamed and empty-named contexts and keep the rest in order. */
  lemma FolderPathPush(stack: seq<Option<string>>, name: Option<string>)
    ensures FolderPath(stack + [name])
         == FolderPath(stack) + (if name.Some? && name.value != "" then [name.value] else [])
  {
    TakeSnoc(stack, name);
  }

  // ----- the handlers' contracts, one event at a time -----

  /** `<dl>` pushes exactly one unnamed context and touches nothing else. */
  lemma StartDl(s: State, tag: string, attrs: seq<(string, Option<string>)>)
    requires Valid(s) && Lower(tag) == "dl"
    ensures Step(s, StartTag(tag, attrs)) == s.(stack := s.stack + [None])
  {
    KindOfSpec(tag);
  }

  /** `</dl>` pops exactly one context when there is more than the root, and is
      ignored at root depth. */
  lemma EndDl(s: State, tag: string)
    requires Valid(s) && Lower(tag) == "dl"
    ensures |s.stack| > 1 ==> Step(s, EndTag(tag)) == s.(stack := s.stack[..|s.stack| - 1])
    ensures |s.stack| == 1 ==> Step(s, EndTag(tag)) == s
  {
    KindOfSpec(tag);
  }

  /** A closing `</h3>` or `</a>` that does not match the pending tag changes nothing. */
  lemma UnmatchedEndTag(s: State, tag: string)
    requires Valid(s)
    requires Lower(tag) == "h3" || Lower(tag) == "a"
    requires Lower(tag) == "h3" ==> s.currentTag != PendingH3
    requires Lower(tag) == "a" ==> s.currentTag != PendingA
    ensures Step(s, EndTag(tag)) == s
  {
    KindOfSpec(tag);
  }

  /** A matched `</h3>` names the context on top of the stack, the list that
      encloses the heading, with the collected text stripped. */
  lemma MatchedEndH3(s: State, tag: string)
    requires Valid(s) && Lower(tag) == "h3" && s.currentTag == PendingH3
    ensures var r := Step(s, EndTag(tag));
      && |r.stack| == |s.stack|
      && r.stack[..|s.stack| - 1] == s.stack[..|s.stack| - 1]
      && r.stack[|s.stack| - 1] == Some(Strip(s.currentData))
      && r.currentTag == NoTag
      && r.bookmarks == s.bookmarks
  {
    KindOfSpec(tag);
  }

  /** A matched `</a>` appends exactly one record: the stripped link text, the
      `href` attribute (possibly absent), the names on the stack and the
      `add_date` attribute defaulting to the empty string. */
  lemma MatchedEndA(s: State, tag: string)
    requires Valid(s) && Lower(tag) == "a" && s.currentTag == PendingA
    ensures var r := Step(s, EndTag(tag));
      && r.bookmarks == s.bookmarks + [LinkRecord(s)]
      && r.stack == s.stack
      && r.currentTag == NoTag
    ensures LinkRecord(s).title == Some(Strip(s.currentData))
    ensures LinkRecord(s).url == (if "href" in s.currentAttrs then s.currentAttrs["href"] else None)
    ensures LinkRecord(s).addDate == (if "add_date" in s.currentAttrs then s.currentAttrs["add_date"] else Some(""))
    ensures forall i :: 0 <= i < |LinkRecord(s).folder| ==> LinkRecord(s).folder[i] != ""
  {
    KindOfSpec(tag);
  }

  /** Text is collected only while a heading or a link is open. */
  lemma DataOnlyWhilePending(s: State, text: string)
    requires Valid(s)
    ensures s.currentTag == NoTag ==> Step(s, Data(text)) == s
    ensures s.currentTag != NoTag ==> Step(s, Data(text)).currentData == s.currentData + text
  {
  }

  /** Text split over several events is collected as if it came in one. */
  lemma DataConcat(s: State, a: string, b: string)
    requires Valid(s)
    ensures Run(s, [Data(a), Data(b)]) == Run(s, [Data(a + b)])
  {
    var s1 := Step(s, Data(a));
    if s.currentTag != NoTag {
      assert s.currentData + a + b == s.currentData + (a + b);
    }
    assert Step(s1, Data(b)) == Step(s, Data(a + b));
    RunCons(s, Data(a), [Data(b)]);
    RunOne(s1, Data(b));
    RunOne(s, Data(a + b));
    assert [Data(a)] + [Data(b)] == [Data(a), Data(b)];
  }

  /** Records are only ever appended: a run keeps the records it started with
      and adds at most one per event. */
  lemma {:induction false} RunKeepsRecords(s: State, es: seq<Event>)
    requires Valid(s)
    ensures IsPrefixOf(s.bookmarks, Run(s, es).bookmarks)
    ensures |Run(s, es).bookmarks| <= |s.bookmarks| + |es|
    decreases |es|
  {
    if |es| > 0 {
      var s1 := Step(s, es[0]);
      assert IsPrefixOf(s.bookmarks, s1.bookmarks) && |s1.bookmarks| <= |s.bookmarks| + 1;
      RunKeepsRecords(s1, es[1..]);
    }
  }

  /** Two events are handled one after the other. */
  lemma RunTwo(s: State, e0: Event, e1: Event)
    requires Valid(s)
    ensures Run(s, [e0, e1]) == Step(Step(s, e0), e1)
  {
    assert [e0, e1][1..] == [e1];
    RunOne(Step(s, e0), e1);
  }

  /** Three events are handled one after the other. */
  lemma RunThree(s: State, e0: Event, e1: Event, e2: Event)
    requires Valid(s)
    ensures Run(s, [e0, e1, e2]) == Step(Step(Step(s, e0), e1), e2)
  {
    assert [e0, e1, e2][1..] == [e1, e2];
    RunTwo(Step(s, e0), e1, e2);
  }

  /** The tag names the exporter writes are already lower case. */
  lemma LowerTags()
    ensures Lower("dl") == "dl" && Lower("p") == "p" && Lower("dt") == "dt"
    ensures Lower("h3") == "h3" && Lower("a") == "a"
    ensures Lower("href") == "href" && Lower("add_date") == "add_date"
  {
    LowerOfLower("dl");
    LowerOfLower("p");
    LowerOfLower("dt");
    LowerOfLower("h3");
    LowerOfLower("a");
    LowerOfLower("href");
    LowerOfLower("add_date");
  }

  /** How the handlers classify the tags the exporter writes. */
  lemma TagKinds()
    ensures KindOf("dl") == DlTag && KindOf("h3") == H3Tag && KindOf("a") == ATag
    ensures KindOf("p") == OtherTag && KindOf("dt") == OtherTag
  {
  }

  // ----- the tag groups a bookmark file is made of -----

  /** An event that never changes an idle parser: text, or a tag other than
      `dl`, `h3` and `a` (closing `h3` and `a` included, since nothing is open). */
  predicate Inert(e: Event) {
    match e
    case Data(_) => true
    case StartTag(t, _) => KindOf(t) == OtherTag
    case EndTag(t) => KindOf(t) != DlTag
  }

  /** An idle parser ignores inert events altogether. */
  lemma {:induction false} InertRun(s: State, es: seq<Event>)
    requires Valid(s) && s.currentTag == NoTag
    requires forall i :: 0 <= i < |es| ==> Inert(es[i])
    ensures Run(s, es) == s
    decreases |es|
  {
    if |es| > 0 {
      assert Inert(es[0]);
      assert Step(s, es[0]) == s;
      InertRun(s, es[1..]);
    }
  }

  /** `<dl><p>`: the opening of a list. */
  function OpenListEvents(): seq<Event> {
    [StartTag("dl", []), StartTag("p", [])]
  }

  /** `</dl><p>`: the closing of a list. */
  function CloseListEvents(): seq<Event> {
    [EndTag("dl"), StartTag("p", [])]
  }

  /** `<h3>name</h3>`. */
  function HeadingEvents(name: string): seq<Event> {
    [StartTag("h3", []), Data(name), EndTag("h3")]
  }

  /** `<a attrs>text</a>`. */
  function LinkEvents(attrs: seq<(string, Option<string>)>, text: string): seq<Event> {
    [StartTag("a", attrs), Data(text), EndTag("a")]
  }

  // Each tag the exporter writes, handled on its own.

  lemma StepOpenDl(s: State)
    requires Valid(s)
    ensures Step(s, StartTag("dl", [])) == s.(stack := s.stack + [None])
  {
    TagKinds();
  }

  lemma StepCloseDl(s: State)
    requires Valid(s)
    ensures Step(s, EndTag("dl")) == if |s.stack| > 1 then s.(stack := s.stack[..|s.stack| - 1]) else s
  {
    TagKinds();
  }

  lemma StepOther(s: State, tag: string)
    requires Valid(s) && (tag == "p" || tag == "dt")
    ensures Step(s, StartTag(tag, [])) == s
  {
    TagKinds();
  }

  lemma StepOpenH3(s: State)
    requires Valid(s)
    ensures Step(s, StartTag("h3", [])) == s.(currentTag := PendingH3, currentData := "")
  {
    TagKinds();
  }

  lemma StepCloseH3(s: State)
    requires Valid(s) && s.currentTag == PendingH3
    ensures Step(s, EndTag("h3"))
         == s.(stack := s.stack[..|s.stack| - 1] + [Some(Strip(s.currentData))], currentTag := NoTag)
  {
    TagKinds();
  }

  lemma StepOpenA(s: State, attrs: seq<(string, Option<string>)>)
    requires Valid(s)
    ensures Step(s, StartTag("a", attrs)) == s.(currentTag := PendingA, currentData := "", currentAttrs := AttrMap(attrs))
  {
    TagKinds();
  }

  lemma StepCloseA(s: State)
    requires Valid(s) && s.currentTag == PendingA
    ensures Step(s, EndTag("a")) == s.(bookmarks := s.bookmarks + [LinkRecord(s)], currentTag := NoTag)
  {
    TagKinds();
  }

  lemma StepText(s: State, text: string)
    requires Valid(s) && s.currentTag != NoTag && s.currentData == ""
    ensures Step(s, Data(text)) == s.(currentData := text)
  {
    assert "" + text == text;
  }

  /** Opening a list pushes one unnamed context. */
  lemma OpenListRun(s: State)
    requires Valid(s) && s.currentTag == NoTag
    ensures Run(s, OpenListEvents()) == s.(stack := s.stack + [None])
  {
    RunTwo(s, StartTag("dl", []), StartTag("p", []));
    StepOpenDl(s);
    StepOther(s.(stack := s.stack + [None]), "p");
  }

  /** Closing a list pops one context, provided there is more than the root. */
  lemma CloseListRun(s: State)
    requires Valid(s) && s.currentTag == NoTag
    ensures Run(s, CloseListEvents()) == if |s.stack| > 1 then s.(stack := s.stack[..|s.stack| - 1]) else s
  {
    RunTwo(s, EndTag("dl"), StartTag("p", []));
    StepCloseDl(s);
    StepOther(if |s.stack| > 1 then s.(stack := s.stack[..|s.stack| - 1]) else s, "p");
  }

  /** A heading names the context on top of the stack. */
  lemma HeadingRun(s: State, name: string)
    requires Valid(s) && s.currentTag == NoTag
    ensures Run(s, HeadingEvents(name))
         == s.(stack := s.stack[..|s.stack| - 1] + [Some(Strip(name))], currentData := name)
  {
    var s1 := s.(currentTag := PendingH3, currentData := "");
    RunThree(s, StartTag("h3", []), Data(name), EndTag("h3"));
    StepOpenH3(s);
    StepText(s1, name);
    StepCloseH3(s1.(currentData := name));
  }

  /** A link appends the one record `LinkRecord` describes. */
  lemma LinkRun(s: State, attrs: seq<(string, Option<string>)>, text: string)
    requires Valid(s) && s.currentTag == NoTag
    ensures Run(s, LinkEvents(attrs, text))
         == s.(bookmarks := s.bookmarks + [LinkRecord(s.(currentData := text, currentAttrs := AttrMap(attrs)))],
               currentData := text, currentAttrs := AttrMap(attrs))
  {
    var s1 := s.(currentTag := PendingA, currentData := "", currentAttrs := AttrMap(attrs));
    var s2 := s1.(currentData := text);
    RunThree(s, StartTag("a", attrs), Data(text), EndTag("a"));
    StepOpenA(s, attrs);
    StepText(s1, text);
    StepCloseA(s2);
    assert LinkRecord(s2) == LinkRecord(s.(currentData := text, currentAttrs := AttrMap(attrs)));
  }

  /** Two headings in the same list: the later one's text is the name that stays. */
  lemma LaterHeadingOverwrites(s: State, x: string, y: string)
    requires Valid(s) && s.currentTag == NoTag
    ensures Run(s, HeadingEvents(x) + HeadingEvents(y)).stack
         == s.stack[..|s.stack| - 1] + [Some(Strip(y))]
  {
    RunAppend(s, HeadingEvents(x), HeadingEvents(y));
    HeadingRun(s, x);
    var s1 := Run(s, HeadingEvents(x));
    HeadingRun(s1, y);
    assert s1.stack[..|s1.stack| - 1] == s.stack[..|s.stack| - 1];
  }

  lemma HrefOnly(v: Option<string>)
    ensures AttrMap([("href", v)]) == map["href" := v]
    ensures GetAttr(AttrMap([("href", v)]), "href", None) == v
    ensures GetAttr(AttrMap([("href", v)]), "add_date", Some("")) == Some("")
  {
    assert |"add_date"| != |"href"|;
    LowerTags();
    assert [("href", v)][..0] == [];
  }

  /** The events before the link in `OneFolderExample`: two lists opened, the
      outer one named by the heading between them. */
  lemma OneFolderOpening(s: State, name: string)
    requires Valid(s) && s.currentTag == NoTag && Trimmed(name)
    ensures var r := Run(s, OpenListEvents() + HeadingEvents(name) + OpenListEvents());
      r.stack == s.stack + [Some(name), None] && r.bookmarks == s.bookmarks && r.currentTag == NoTag
  {
    OpenListRun(s);
    var s1 := Run(s, OpenListEvents());
    HeadingRun(s1, name);
    var s2 := Run(s1, HeadingEvents(name));
    assert s2.stack == s.stack + [Some(name)] by {
      StripTrimmed(name);
      TakeSnoc(s.stack, None);
    }
    OpenListRun(s2);
    RunAppend(s, OpenListEvents(), HeadingEvents(name));
    RunAppend(s, OpenListEvents() + HeadingEvents(name), OpenListEvents());
  }

  /** A folder holding one link, read from any idle state: the link is filed
      under the enclosing folders followed by the folder's heading. */
  lemma OneFolderRun(s: State, name: string, url: string, text: string)
    requires Valid(s) && s.currentTag == NoTag
    requires name != "" && Trimmed(name) && Trimmed(text)
    ensures Run(s, OpenListEvents() + HeadingEvents(name)
                   + OpenListEvents() + LinkEvents([("href", Some(url))], text)
                   + CloseListEvents() + CloseListEvents()).bookmarks
         == s.bookmarks + [Bookmark(Some(text), Some(url), FolderPath(s.stack) + [name], Some(""))]
  {
    var attrs := [("href", Some(url))];
    var e3 := OpenListEvents() + HeadingEvents(name) + OpenListEvents();
    OneFolderOpening(s, name);
    var s3 := Run(s, e3);
    LinkRun(s3, attrs, text);
    var s4 := Run(s3, LinkEvents(attrs, text));
    HrefOnly(Some(url));
    var r := s3.(currentData := text, currentAttrs := AttrMap(attrs));
    StripTrimmed(text);
    FolderPathPush(s.stack, Some(name));
    FolderPathPush(s.stack + [Some(name)], None);
    AppendAssoc(s.stack, [Some(name)], [None]);
    assert [Some(name)] + [None] == [Some(name), None];
    assert FolderPath(s3.stack) == FolderPath(s.stack) + [name];
    assert LinkRecord(r) == Bookmark(Some(text), Some(url), FolderPath(s.stack) + [name], Some(""));
    CloseListRun(s4);
    var s5 := Run(s4, CloseListEvents());
    CloseListRun(s5);
    RunAppend(s, e3, LinkEvents(attrs, text));
    var e4 := e3 + LinkEvents(attrs, text);
    RunAppend(s, e4, CloseListEvents());
    var e5 := e4 + CloseListEvents();
    RunAppend(s, e5, CloseListEvents());
  }

  /** The worked example of the format: a folder holding one link. The
      folder's heading names the outer list, and the link inside the inner list
      is filed under that name. */
  lemma OneFolderExample(name: string, url: string, text: string)
    requires name != "" && Trimmed(name) && Trimmed(text)
    ensures Parse(OpenListEvents() + HeadingEvents(name)
                  + OpenListEvents() + LinkEvents([("href", Some(url))], text)
                  + CloseListEvents() + CloseListEvents())
         == [Bookmark(Some(text), Some(url), [name], Some(""))]
  {
    OneFolderRun(Init(), name, url, text);
    var e: seq<Option<string>> := [None];
    assert e[..0] == [];
    assert FolderPath(e) == [];
    assert Init().stack == e && Init().bookmarks == [];
    assert FolderPath(e) + [name] == [name];
  }
}
