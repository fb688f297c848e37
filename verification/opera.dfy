/** The Opera adapter's pure kernel: the walk over the parsed `Bookmarks`
    JSON document that turns every url entry into a record filed under the
    names of the folders enclosing it. Reading and parsing the file are left
    to the caller: the document comes in as a JSON value. */
module Opera {
  import opened Records
  import opened Seqs

  /** A parsed JSON value. Objects keep their members in document order; a
      later member with the same key hides an earlier one, as `json.load`
      does. Numbers are integers only. */
  datatype Json =
    | JNull
    | JBool(b: bool)
    | JNum(n: int)
    | JStr(s: string)
    | JArr(items: seq<Json>)
    | JObj(fields: seq<(string, Json)>)

  /** Why the Python code would raise, or why a value does not fit the record
      type: a `.get` on something that is not an object, a `for` over
      something that is not iterable, or a non-text value where the record
      holds text. */
  datatype Error = NotAnObject | NotIterable | NotText

  datatype Result<T> = Ok(value: T) | Err(error: Error)

  /** The position of the member that `d.get(key)` returns: the last one with
      that key, or -1 when there is none. */
  function FieldIndex(fields: seq<(string, Json)>, key: string): (i: int)
    ensures -1 <= i < |fields|
    ensures i >= 0 ==> fields[i].0 == key
    ensures forall j :: i < j < |fields| ==> fields[j].0 != key
    decreases |fields|
  {
    if |fields| == 0 then -1
    else if fields[|fields| - 1].0 == key then |fields| - 1
    else FieldIndex(fields[..|fields| - 1], key)
  }

  /** `d.get(key)` on an object's members. */
  function Get(fields: seq<(string, Json)>, key: string): (r: Option<Json>)
    ensures r.None? <==> forall i :: 0 <= i < |fields| ==> fields[i].0 != key
    ensures r.Some? ==>
      exists i :: 0 <= i < |fields| && fields[i] == (key, r.value)
        && forall j :: i < j < |fields| ==> fields[j].0 != key
  {
    var i := FieldIndex(fields, key);
    if i < 0 then None else Some(fields[i].1)
  }

  /** `d.get(key, default)` where the record needs text: a string, or JSON
      null (Python's None). */
  function GetText(fields: seq<(string, Json)>, key: string, default: Option<string>): Result<Option<string>> {
    match Get(fields, key)
    case None => Ok(default)
    case Some(JStr(s)) => Ok(Some(s))
    case Some(JNull) => Ok(None)
    case Some(_) => Err(NotText)
  }

  /** A folder name, which the record's path can only hold as a string. */
  function GetName(fields: seq<(string, Json)>, default: string): Result<string> {
    match Get(fields, "name")
    case None => Ok(default)
    case Some(JStr(s)) => Ok(s)
    case Some(_) => Err(NotText)
  }

  /** Python truthiness of a JSON value. */
  predicate Truthy(j: Json) {
    match j
    case JNull => false
    case JBool(b) => b
    case JNum(n) => n != 0
    case JStr(s) => s != ""
    case JArr(items) => |items| > 0
    case JObj(fields) => |fields| > 0
  }

  /** The size of a value, the measure the traversal decreases. */
  function Size(j: Json): nat {
    match j
    case JArr(items) => 1 + SizeItems(items)
    case JObj(fields) => 1 + SizeFields(fields)
    case _ => 1
  }

  function SizeItems(items: seq<Json>): nat
    decreases items
  {
    if |items| == 0 then 0 else 1 + Size(items[0]) + SizeItems(items[1..])
  }

  function SizeFields(fields: seq<(string, Json)>): nat
    decreases fields
  {
    if |fields| == 0 then 0 else SizeMember(fields[0]) + SizeFields(fields[1..])
  }

  function SizeMember(f: (string, Json)): nat
    decreases f
  {
    Size(f.1)
  }

  lemma {:induction false} SizeField(fields: seq<(string, Json)>, i: int)
    requires 0 <= i < |fields|
    ensures SizeMember(fields[i]) <= SizeFields(fields)
    decreases |fields|
  {
    if i > 0 {
      SizeField(fields[1..], i - 1);
    }
  }

  /** `child.get("type") == t`. */
  predicate HasType(fields: seq<(string, Json)>, t: string) {
    Get(fields, "type") == Some(JStr(t))
  }

  /** What `for child in node.get("children", [])` iterates over: an array's
      items; an empty object or string gives nothing, a non-empty one gives
      keys or characters, on which the `.get` that follows fails. */
  function Children(fields: seq<(string, Json)>): (r: Result<seq<Json>>)
    ensures r.Ok? ==> SizeItems(r.value) < 1 + SizeFields(fields)
  {
    var i := FieldIndex(fields, "children");
    if i < 0 then Ok([])
    else
      SizeField(fields, i);
      match fields[i].1
      case JArr(items) => Ok(items)
      case JObj(fs) => if |fs| == 0 then Ok([]) else Err(NotAnObject)
      case JStr(s) => if s == "" then Ok([]) else Err(NotAnObject)
      case _ => Err(NotIterable)
  }

  /** Two parts of the walk one after the other: the first failure, or both
      lists of records in order. */
  function Then(a: Result<seq<Bookmark>>, b: Result<seq<Bookmark>>): Result<seq<Bookmark>> {
    if a.Err? then a else if b.Err? then b else Ok(a.value + b.value)
  }

  /** `traverse(node, path)`: the records of the entries below `node`, in
      document order, each url entry filed under `path` extended by the names
      of the folders between. */
  function Traverse(node: Json, path: seq<string>): Result<seq<Bookmark>>
    decreases Size(node), 1
  {
    match node
    case JObj(fields) =>
      (match Children(fields)
       case Err(e) => Err(e)
       case Ok(items) => TraverseItems(items, path))
    case _ => Err(NotAnObject)
  }

  /** The loop over a node's children. */
  function TraverseItems(items: seq<Json>, path: seq<string>): Result<seq<Bookmark>>
    decreases SizeItems(items), 0
  {
    if |items| == 0 then Ok([])
    else Then(Visit(items[0], path), TraverseItems(items[1..], path))
  }

  /** One child: a url entry gives one record, with `name` and `date_added`
      defaulting to the empty string and no fallback for the title; a folder
      is walked with its name appended to the path; any other type is skipped. */
  function Visit(child: Json, path: seq<string>): Result<seq<Bookmark>>
    decreases Size(child), 2
  {
    match child
    case JObj(fields) =>
      if HasType(fields, "url") then
        (match (GetText(fields, "name", Some("")), GetText(fields, "url", None), GetText(fields, "date_added", Some("")))
         case (Ok(title), Ok(url), Ok(date)) => Ok([Bookmark(title, url, path, date)])
         case (Err(e), _, _) => Err(e)
         case (_, Err(e), _) => Err(e)
         case (_, _, Err(e)) => Err(e))
      else if HasType(fields, "folder") then
        (match GetName(fields, "")
         case Err(e) => Err(e)
         case Ok(name) => Traverse(child, path + [name]))
      else Ok([])
    case _ => Err(NotAnObject)
  }

  /** The roots, visited in this order. */
  const RootKeys: seq<string> := ["bookmark_bar", "other", "synced"]

  /** One root: skipped when missing or falsy, otherwise walked with its
      name, defaulting to its key, as the first folder of the path. */
  function VisitRoot(roots: seq<(string, Json)>, key: string): Result<seq<Bookmark>> {
    match Get(roots, key)
    case None => Ok([])
    case Some(root) =>
      if !Truthy(root) then Ok([])
      else
        match root
        case JObj(fields) =>
          (match GetName(fields, key)
           case Err(e) => Err(e)
           case Ok(name) => Traverse(root, [name]))
        case _ => Err(NotAnObject)
  }

  /** `extract_opera_bookmarks` once the file is parsed. */
  function ExtractOpera(data: Json): Result<seq<Bookmark>> {
    match data
    case JObj(fields) =>
      (match (match Get(fields, "roots") case None => JObj([]) case Some(r) => r)
       case JObj(roots) =>
         Then(VisitRoot(roots, RootKeys[0]), Then(VisitRoot(roots, RootKeys[1]), VisitRoot(roots, RootKeys[2])))
       case _ => Err(NotAnObject))
    case _ => Err(NotAnObject)
  }

  // ----- properties of the walk -----

  /** Each record's folder path with `p` put in front. */
  function Prefixed(p: seq<string>, r: Result<seq<Bookmark>>): (r': Result<seq<Bookmark>>)
    ensures r'.Err? <==> r.Err?
    ensures r.Err? ==> r' == r
    ensures r.Ok? ==> |r'.value| == |r.value|
    ensures r.Ok? ==> forall i :: 0 <= i < |r.value| ==> r'.value[i] == r.value[i].(folder := p + r.value[i].folder)
  {
    match r
    case Err(e) => Err(e)
    case Ok(bs) => Ok(seq(|bs|, i requires 0 <= i < |bs| => bs[i].(folder := p + bs[i].folder)))
  }

  lemma PrefixedThen(p: seq<string>, a: Result<seq<Bookmark>>, b: Result<seq<Bookmark>>)
    ensures Prefixed(p, Then(a, b)) == Then(Prefixed(p, a), Prefixed(p, b))
  {
    if a.Ok? && b.Ok? {
      assert Prefixed(p, Then(a, b)).value == Prefixed(p, a).value + Prefixed(p, b).value;
    }
  }

  /** Walking a node under `p + q` gives the records of walking it under `q`,
      each with `p` put in front of its folder path; failures do not depend on
      the path. */
  lemma {:induction false} TraverseShift(node: Json, p: seq<string>, q: seq<string>)
    ensures Traverse(node, p + q) == Prefixed(p, Traverse(node, q))
    decreases Size(node), 1
  {
    if node.JObj? && Children(node.fields).Ok? {
      ItemsShift(Children(node.fields).value, p, q);
    }
  }

  lemma {:induction false} ItemsShift(items: seq<Json>, p: seq<string>, q: seq<string>)
    ensures TraverseItems(items, p + q) == Prefixed(p, TraverseItems(items, q))
    decreases SizeItems(items), 0
  {
    if |items| > 0 {
      VisitShift(items[0], p, q);
      ItemsShift(items[1..], p, q);
      PrefixedThen(p, Visit(items[0], q), TraverseItems(items[1..], q));
    }
  }

  lemma {:induction false} VisitShift(child: Json, p: seq<string>, q: seq<string>)
    ensures Visit(child, p + q) == Prefixed(p, Visit(child, q))
    decreases Size(child), 2
  {
    match child
    case JObj(fields) =>
      if HasType(fields, "url") {
        var t, u, d := GetText(fields, "name", Some("")), GetText(fields, "url", None), GetText(fields, "date_added", Some(""));
        if t.Ok? && u.Ok? && d.Ok? {
          var b := Bookmark(t.value, u.value, q, d.value);
          assert Visit(child, q) == Ok([b]);
          assert Prefixed(p, Ok([b])).value == [b.(folder := p + q)];
        }
      } else if HasType(fields, "folder") {
        match GetName(fields, "")
        case Err(e) =>
        case Ok(name) =>
          AppendAssoc(p, q, [name]);
          TraverseShift(child, p, q + [name]);
      }
    case _ =>
  }

  /** Every record a walk under `p` produces is filed under `p` or below it. */
  lemma RecordsUnderPath(node: Json, p: seq<string>)
    ensures Traverse(node, p).Ok? ==>
      forall i :: 0 <= i < |Traverse(node, p).value| ==>
        |p| <= |Traverse(node, p).value[i].folder| && Traverse(node, p).value[i].folder[..|p|] == p
  {
    TraverseShift(node, p, []);
    AppendNil(p, []);
    if Traverse(node, p).Ok? {
      var r := Traverse(node, []).value;
      forall i | 0 <= i < |r| ensures (p + r[i].folder)[..|p|] == p {
        TakeAppend(p, r[i].folder);
      }
    }
  }

  /** An entry whose type is neither `url` nor `folder` contributes nothing. */
  lemma OtherEntrySkipped(fields: seq<(string, Json)>, items: seq<Json>, path: seq<string>)
    requires !HasType(fields, "url") && !HasType(fields, "folder")
    ensures TraverseItems([JObj(fields)] + items, path) == TraverseItems(items, path)
  {
    var all := [JObj(fields)] + items;
    assert all[0] == JObj(fields) && all[1..] == items;
    var rest := TraverseItems(items, path);
    if rest.Ok? {
      AppendNil([], rest.value);
    }
  }

  /** The records of one child, or none when visiting it fails. */
  function VisitRecords(child: Json, path: seq<string>): seq<Bookmark> {
    var r := Visit(child, path);
    if r.Ok? then r.value else []
  }

  /** The children of a node are walked in order: the walk succeeds exactly
      when every child's visit does, and its records are theirs concatenated
      in document order. */
  lemma {:induction false} ItemsInOrder(items: seq<Json>, path: seq<string>)
    ensures TraverseItems(items, path).Ok? <==> forall i :: 0 <= i < |items| ==> Visit(items[i], path).Ok?
    ensures TraverseItems(items, path).Ok? ==>
      TraverseItems(items, path).value == Concat(seq(|items|, i requires 0 <= i < |items| => VisitRecords(items[i], path)))
    decreases |items|
  {
    if |items| > 0 {
      var rest := items[1..];
      ItemsInOrder(rest, path);
      assert forall i :: 0 <= i < |rest| ==> rest[i] == items[i + 1];
      var ss := seq(|items|, i requires 0 <= i < |items| => VisitRecords(items[i], path));
      assert ss[1..] == seq(|rest|, i requires 0 <= i < |rest| => VisitRecords(rest[i], path));
    }
  }

  /** A failed walk fails with the error of the first child whose visit
      fails. */
  lemma {:induction false} ItemsFirstError(items: seq<Json>, path: seq<string>)
    ensures TraverseItems(items, path).Err? ==>
      exists k :: 0 <= k < |items| && Visit(items[k], path) == Err(TraverseItems(items, path).error)
        && forall j :: 0 <= j < k ==> Visit(items[j], path).Ok?
    decreases |items|
  {
    if |items| > 0 && Visit(items[0], path).Ok? && TraverseItems(items[1..], path).Err? {
      var rest := items[1..];
      ItemsFirstError(rest, path);
      var k :| 0 <= k < |rest| && Visit(rest[k], path) == Err(TraverseItems(rest, path).error)
        && forall j :: 0 <= j < k ==> Visit(rest[j], path).Ok?;
      assert Visit(items[k + 1], path) == Err(TraverseItems(items, path).error);
      forall j | 0 < j < k + 1 ensures Visit(items[j], path).Ok? {
        assert items[j] == rest[j - 1];
      }
    }
  }

  /** Every record of a successful result has a non-empty folder path. */
  predicate Filed(r: Result<seq<Bookmark>>) {
    r.Ok? ==> forall i :: 0 <= i < |r.value| ==> |r.value[i].folder| >= 1
  }

  lemma ThenFiled(a: Result<seq<Bookmark>>, b: Result<seq<Bookmark>>)
    requires Filed(a) && Filed(b)
    ensures Filed(Then(a, b))
  {
    if a.Ok? && b.Ok? {
      var bs := a.value + b.value;
      forall i | 0 <= i < |bs| ensures |bs[i].folder| >= 1 {
        if i < |a.value| {
          assert bs[i] == a.value[i];
        } else {
          assert bs[i] == b.value[i - |a.value|];
        }
      }
    }
  }

  /** A missing or falsy root gives nothing; a root that is walked files
      everything under its name, which defaults to its key, so every record
      has a non-empty folder path. */
  lemma VisitRootUnderName(roots: seq<(string, Json)>, key: string)
    ensures Get(roots, key).None? || !Truthy(Get(roots, key).value) ==> VisitRoot(roots, key) == Ok([])
    ensures
      (&& Get(roots, key).Some? && Get(roots, key).value.JObj? && Truthy(Get(roots, key).value)
       && Get(Get(roots, key).value.fields, "name").None? && VisitRoot(roots, key).Ok?) ==>
      forall i :: 0 <= i < |VisitRoot(roots, key).value| ==>
        |VisitRoot(roots, key).value[i].folder| >= 1 && VisitRoot(roots, key).value[i].folder[0] == key
    ensures Filed(VisitRoot(roots, key))
  {
    match Get(roots, key)
    case None =>
    case Some(root) =>
      if Truthy(root) && root.JObj? {
        match GetName(root.fields, key)
        case Err(e) =>
        case Ok(name) =>
          RecordsUnderPath(root, [name]);
          var bs := Traverse(root, [name]);
          if bs.Ok? {
            forall i | 0 <= i < |bs.value| ensures bs.value[i].folder[0] == name {
              assert bs.value[i].folder[..1][0] == name;
            }
          }
      }
  }

  /** The document must be an object; without roots it holds no records;
      with them, a result is the records of bookmark_bar, other and synced,
      in that order. */
  lemma ExtractOperaRoots(data: Json)
    ensures !data.JObj? ==> ExtractOpera(data) == Err(NotAnObject)
    ensures data.JObj? && Get(data.fields, "roots").None? ==> ExtractOpera(data) == Ok([])
    ensures
      (&& data.JObj? && Get(data.fields, "roots").Some? && Get(data.fields, "roots").value.JObj?
       && ExtractOpera(data).Ok?) ==>
      var roots := Get(data.fields, "roots").value.fields;
      && VisitRoot(roots, "bookmark_bar").Ok? && VisitRoot(roots, "other").Ok? && VisitRoot(roots, "synced").Ok?
      && ExtractOpera(data).value
         == VisitRoot(roots, "bookmark_bar").value + VisitRoot(roots, "other").value + VisitRoot(roots, "synced").value
  {
    if data.JObj? && Get(data.fields, "roots").None? {
      assert Get([], "bookmark_bar").None? && Get([], "other").None? && Get([], "synced").None?;
      var none: seq<Bookmark> := [];
      assert none + none == none;
    }
    if data.JObj? && Get(data.fields, "roots").Some? && Get(data.fields, "roots").value.JObj? {
      var roots := Get(data.fields, "roots").value.fields;
      var a, b, c := VisitRoot(roots, "bookmark_bar"), VisitRoot(roots, "other"), VisitRoot(roots, "synced");
      if a.Ok? && b.Ok? && c.Ok? {
        AppendAssoc(a.value, b.value, c.value);
      }
    }
  }

  /** No Opera record sits at the top level: each is filed under the name of
      the root it was found in. */
  lemma ExtractOperaFolders(data: Json)
    ensures ExtractOpera(data).Ok? ==>
      forall i :: 0 <= i < |ExtractOpera(data).value| ==> |ExtractOpera(data).value[i].folder| >= 1
  {
    if data.JObj? {
      var root := match Get(data.fields, "roots") case None => JObj([]) case Some(r) => r;
      if root.JObj? {
        var roots := root.fields;
        VisitRootUnderName(roots, RootKeys[0]);
        VisitRootUnderName(roots, RootKeys[1]);
        VisitRootUnderName(roots, RootKeys[2]);
        ThenFiled(VisitRoot(roots, RootKeys[1]), VisitRoot(roots, RootKeys[2]));
        ThenFiled(VisitRoot(roots, RootKeys[0]), Then(VisitRoot(roots, RootKeys[1]), VisitRoot(roots, RootKeys[2])));
      }
    }
  }

  /** A url entry without a name gets the empty title, whatever its url:
      unlike the Firefox adapter there is no fallback to the url, and the date
      text defaults to the empty string. */
  lemma UrlEntryNoFallback(fields: seq<(string, Json)>, u: string, path: seq<string>)
    requires HasType(fields, "url")
    requires Get(fields, "name").None? && Get(fields, "date_added").None?
    requires Get(fields, "url") == Some(JStr(u))
    ensures Visit(JObj(fields), path) == Ok([Bookmark(Some(""), Some(u), path, Some(""))])
  {
  }

  // ----- a worked example -----

  const ExampleLink: Json := JObj([("type", JStr("url")), ("name", JStr("A")), ("url", JStr("u"))])
  const ExampleFolder: Json := JObj([("type", JStr("folder"))])
  const ExampleBar: Json := JObj([("name", JStr("Bar")), ("children", JArr([ExampleLink, ExampleFolder]))])

  lemma ExampleLinkVisit(path: seq<string>)
    ensures Visit(ExampleLink, path) == Ok([Bookmark(Some("A"), Some("u"), path, Some(""))])
  {
    var f := ExampleLink.fields;
    assert f[..2] == [("type", JStr("url")), ("name", JStr("A"))];
    assert f[..2][..1] == [("type", JStr("url"))];
    assert "url" != "type" && "name" != "type";
    assert FieldIndex(f[..2][..1], "type") == 0;
    assert FieldIndex(f[..2], "type") == 0;
    assert FieldIndex(f, "type") == 0;
    assert GetText(f, "name", Some("")) == Ok(Some("A"));
    assert GetText(f, "url", None) == Ok(Some("u"));
    assert FieldIndex(f, "date_added") == -1;
  }

  lemma ExampleFolderVisit(path: seq<string>)
    ensures Visit(ExampleFolder, path) == Ok([])
  {
    var f := ExampleFolder.fields;
    assert Get(f, "type") == Some(JStr("folder"));
    assert FieldIndex(f, "name") == -1;
    assert FieldIndex(f, "children") == -1;
  }

  lemma ExampleBarItems()
    ensures TraverseItems([ExampleLink, ExampleFolder], ["Bar"]) == Ok([Bookmark(Some("A"), Some("u"), ["Bar"], Some(""))])
  {
    var items := [ExampleLink, ExampleFolder];
    ExampleLinkVisit(["Bar"]);
    ExampleFolderVisit(["Bar"]);
    assert items[1..] == [ExampleFolder] && [ExampleFolder][1..] == [];
    var none: seq<Bookmark> := [];
    var link := [Bookmark(Some("A"), Some("u"), ["Bar"], Some(""))];
    assert none + none == none && link + none == link;
    assert [ExampleFolder][0] == ExampleFolder;
    assert TraverseItems([ExampleFolder], ["Bar"]) == Ok([]);
  }

  lemma ExampleBarTraverse()
    ensures Traverse(ExampleBar, ["Bar"]) == Ok([Bookmark(Some("A"), Some("u"), ["Bar"], Some(""))])
  {
    var bar := ExampleBar.fields;
    assert bar[..1] == [("name", JStr("Bar"))];
    assert "children" != "name";
    assert Get(bar, "children") == Some(JArr([ExampleLink, ExampleFolder]));
    ExampleBarItems();
  }

  /** A bookmark bar named "Bar" holding one link and one unnamed empty
      folder, with the other roots missing, yields the link filed under "Bar". */
  lemma ExampleExtract()
    ensures ExtractOpera(JObj([("roots", JObj([("bookmark_bar", ExampleBar)]))]))
            == Ok([Bookmark(Some("A"), Some("u"), ["Bar"], Some(""))])
  {
    var bar := ExampleBar.fields;
    assert bar[..1] == [("name", JStr("Bar"))];
    assert "children" != "name";
    assert FieldIndex(bar[..1], "name") == 0;
    assert FieldIndex(bar, "name") == 0;
    ExampleBarTraverse();
    var roots := [("bookmark_bar", ExampleBar)];
    assert Get(roots, "bookmark_bar") == Some(ExampleBar);
    assert FieldIndex(roots, "other") == -1 && FieldIndex(roots, "synced") == -1;
    var none: seq<Bookmark> := [];
    var link := [Bookmark(Some("A"), Some("u"), ["Bar"], Some(""))];
    assert none + none == none && link + none == link;
  }
}
