# BookmarkSync in Dafny

BookmarkSync merges bookmark collections. Each browser adapter turns its browser's storage into flat bookmark records. The records are:

- a Netscape bookmark HTML file, read through `BookmarkHTMLParser`;
- a Firefox `places.sqlite` database, whose profile is found through `profiles.ini`;
- an Opera `Bookmarks` JSON file.

A merge then concatenates two record lists and deduplicates them by URL, first seen wins. The merged list is folded into a folder tree, and the tree is written back as a Netscape bookmark HTML document.

This project models that pipeline as pure functions over immutable datatypes and proves what each stage promises.

| file | module | models |
|---|---|---|
| `seqs.dfy` | `Seqs` | flattening and small sequence facts shared by the rest |
| `text.dfy` | `Text` | the Python string operations the code relies on: `strip`, `lower`, `split("=", 1)`, `startswith`, `str(int)` |
| `records.dfy` | `Records` | the record dict `{title, url, folder, add_date}`, with Python's `None` made explicit |
| `merge.dfy` | `Merge` | `merge_bookmark_lists` |
| `tree.dfy` | `FolderTree` | `build_tree`, as an ordered tree `Node(bookmarks, children)` |
| `export.dfy` | `HtmlExport` | `tree_to_html` and the text `export_bookmarks` writes |
| `parser.dfy` | `HtmlParser` | `BookmarkHTMLParser` as a fold of a step function over start-tag, end-tag and text events |
| `roundtrip.dfy` | `RoundTrip` | the events the exported text produces, and parse(export(build_tree(l))) |
| `firefox.dfy` | `Firefox` | the `profiles.ini` scan, `build_path`, and the record loop of `extract_firefox_bookmarks` |
| `opera.dfy` | `Opera` | `traverse` and the roots loop of `extract_opera_bookmarks`, over a JSON datatype |

Modelling choices:

- **Operations that can fail.** Where the Python code can raise or loop, the model returns a value that says so. The Opera walk returns `Result` with the error, and the Firefox folder walk returns `None` when its step bound runs out.
- **The parser's `</h3>` quirk.** `</h3>` names the context on top of the stack, which is the enclosing list, not the list the following `<DL>` opens. The model keeps this.
- **Why the round trip holds anyway.** The writer emits a folder's own bookmarks before its sub-folders. Because of that ordering, the round trip recovers every record under its own folder.
- **Record values.** Titles, urls and dates may be `None`. The writer renders `None` as the text `None`, as an f-string does.

## Model

| member | source | states |
|---|---|---|
| Merge.Dedup | sync.py:10-15 | the first-seen-wins loop as a fold: its result has non-empty, pairwise distinct urls, the same url set as its input, and is no longer; DedupSnoc states one step and DedupSelectsFirstOccurrences the whole result |
| Merge.Merge | sync.py:8-15 | every merged record has a non-empty url, the urls are pairwise distinct, the merged url set is exactly the urls of both inputs, and the result is no longer than the two inputs together |
| Merge.MergeBookmarkLists | sync.py:10-15 | the loop with its insertion-ordered dictionary (a seen-url set plus the values in insertion order) computes the merge, and its output has distinct, non-empty urls |
| Merge.DedupSelectsFirstOccurrences | sync.py:11-14 | the output is the subsequence of `list1 + list2` at exactly the first occurrences of each non-empty url, in increasing index order |
| Merge.FirstSeenWins | sync.py:13-14 | a record that is the first with its url is in the output, and it is the only output record with that url |
| Merge.DedupSnoc | sync.py:12-14 | one loop step: a record is appended exactly when its url is non-empty and not yet kept, and otherwise nothing changes |
| Merge.DedupIdempotent | sync.py:8-15 | deduplicating a merged list again changes nothing |
| Merge.DedupOfClean | sync.py:11-15 | a list whose urls are non-empty and distinct passes through unchanged |
| Merge.DedupAbsorb | sync.py:13 | appending records whose urls are all already present changes nothing |
| Merge.DedupPrefix | sync.py:11-14 | deduplicating a prefix first does not change the result |
| Merge.MergeSelfClean | sync.py:8-15 | merging a clean list with itself returns it |
| Merge.MergeLeftFold | sync.py:8-15 | merging three lists pairwise from the left is one deduplication of their concatenation |
| Merge.MergeExamples | sync.py:13-14 | of two records with the same url, the one from the first list is kept |
| Merge.MergeOrderExample | sync.py:11-15 | for three records with distinct urls x, y, z, merging `[x, y]` with `[z, x]` gives `[x, y, z]`: the repeat is dropped and first-seen order is kept across the lists |
| FolderTree.Insert | sync.py:21-24 | one pass of the outer loop: walk the folder names with `setdefault`, creating missing folders at the end of the children, and append the record to the bucket reached; InsertBucket, InsertChildNames, InsertWellFormed and InsertFlatten state its effect |
| FolderTree.BuildTree | sync.py:18-25 | the records inserted one after another from the empty root; the BuildTree lemmas below state the resulting tree |
| FolderTree.BuildTreeBucket | sync.py:18-25 | the bucket at path p is the input records whose folder is exactly p, in input order; intermediate folders get none of a deeper record, and the empty path is the root bucket |
| FolderTree.BuildTreeChildNames | sync.py:21-23 | the sub-folders under p are the distinct next names of the records below p, in first-insertion order |
| FolderTree.BuildTreeFolders | sync.py:21-23 | a node exists at p exactly when p is the root or a prefix of some record's folder |
| FolderTree.BuildTreeWellFormed | sync.py:23 | `setdefault` reuses one child per name, so the names at every node are unique |
| FolderTree.BuildTreePermutation | sync.py:20-24 | the tree holds each input record exactly once (as a multiset), relabelled with its path, so the total count is kept |
| FolderTree.BuildTreeFlattenInFolder | sync.py:18-25 | reading the tree back by folder gives, for every path, the records filed there in input order |
| FolderTree.InsertBucket | sync.py:21-24 | one insertion appends the record to the bucket at its own path and to no other bucket |
| FolderTree.InsertChildNames | sync.py:22-23 | one insertion adds at most the next name of its path, at the end, and only when it is new |
| HtmlExport.RenderLine | sync.py:34-42 | the four line shapes: a link line with url, date and title inserted verbatim, an H3 line, `<DL><p>` and `</DL><p>`, each after the indent; RenderedListLines states how list lines are told apart |
| HtmlExport.TreeLines | sync.py:28-43 | a node's bucket lines, then for each child its H3 line, `<DL><p>`, its lines one level deeper and `</DL><p>`; BucketFirst, TreeLinesDepth and DocumentBalanced state the shape |
| HtmlExport.ExportBookmarks | sync.py:46-56 | the text written: the preamble, `<DL><p>`, the tree's lines at indent 1, `</DL><p>`, one newline after each; ExportIsDocumentLines and the RoundTrip lemmas state it |
| HtmlExport.BucketFirst | sync.py:31-42 | a node's lines start with one link line per bookmark, in bucket order, and no later line at that depth is a link |
| HtmlExport.DocumentBalanced | sync.py:39-42 | every `<DL><p>` line of the document has its `</DL><p>` line, and no prefix closes more lists than it opened |
| HtmlExport.TreeLinesDepth | sync.py:30-41 | no line of a subtree is indented less than its depth |
| HtmlExport.RenderedListLines | sync.py:40-42 | a rendered line ends with `</DL><p>` exactly when it closes a list, and ends with `<DL><p>` without `</DL><p>` exactly when it opens one |
| HtmlExport.ExportIsDocumentLines | sync.py:46-56 | the exported text is the fixed preamble followed by the newline-terminated lines of one outer list around the tree at depth 1 |
| HtmlExport.DocumentRendering | sync.py:53-56 | those document lines render as `<DL><p>`, the tree's lines at indent 1, and `</DL><p>` |
| HtmlExport.Indent | sync.py:30 | the indent for depth d is 4·d spaces |
| HtmlParser.HandleStartTag | parser.py:15-25 | `<dl>` pushes an unnamed context, `<h3>` and `<a>` set the pending tag and clear the text, `<a>` also captures the lower-cased attributes, other tags do nothing; StartDl, StepOpenH3, StepOpenA and InertRun state it |
| HtmlParser.HandleEndTag | parser.py:27-43 | `</dl>` pops unless at the root, a matched `</h3>` names the top context, a matched `</a>` appends a record, anything else does nothing; EndDl, MatchedEndH3, MatchedEndA and UnmatchedEndTag state it |
| HtmlParser.HandleData | parser.py:45-47 | text is appended only while h3 or a is pending; DataOnlyWhilePending states it |
| HtmlParser.Step | parser.py:15-47 | dispatch of one event to its handler, keeping the stack non-empty |
| HtmlParser.Parse | parser.py:54-56 | the records after feeding the whole event stream from the initial state; RunKeepsRecords, OneFolderExample and RoundTrip.DocumentRoundTrip state results |
| HtmlParser.AttrMapLastWins | parser.py:25 | attribute names are lower-cased, and for a repeated name the last value wins |
| HtmlParser.FolderPath | parser.py:36 | the folder is drawn from the stack's names and holds no empty name |
| HtmlParser.FolderPathPush | parser.py:36 | pushing a context adds its name to the folder exactly when the name is set and non-empty |
| HtmlParser.KindOfSpec | parser.py:16-22 | the tag classifier agrees with comparing the lower-cased tag with `dl`, `h3` and `a` |
| HtmlParser.Run | parser.py:9 | the context stack is never empty, from the initial root context on |
| HtmlParser.StartDl | parser.py:17-18 | `<dl>` pushes exactly one unnamed context and changes nothing else |
| HtmlParser.EndDl | parser.py:29-31 | `</dl>` pops exactly one context when there are two or more, and is ignored at the root |
| HtmlParser.UnmatchedEndTag | parser.py:32-35 | `</h3>` or `</a>` without the matching pending tag changes nothing |
| HtmlParser.MatchedEndH3 | parser.py:32-34 | a matched `</h3>` names the top context with the stripped text, keeps the rest of the stack and the records, and clears the pending tag |
| HtmlParser.MatchedEndA | parser.py:35-43 | a matched `</a>` appends exactly one record: the stripped text, `href` or None, `add_date` or the empty string, and the stack's non-empty names |
| HtmlParser.DataOnlyWhilePending | parser.py:45-47 | text is kept only while an h3 or an a is pending, and is then appended |
| HtmlParser.DataConcat | parser.py:45-47 | two text chunks read the same as their concatenation |
| HtmlParser.RunKeepsRecords | parser.py:37-42 | records are only ever appended, at most one per event |
| HtmlParser.LaterHeadingOverwrites | parser.py:33 | a second heading in the same list replaces the name the first one set |
| HtmlParser.InertRun | parser.py:15-47 | other tags and end tags other than `</dl>` change nothing while no tag is pending |
| HtmlParser.OneFolderExample | parser.py:15-43 | the event stream of `<DL><p><H3>name</H3><DL><p><A HREF=url>text</A></DL><p></DL><p>` yields the one record with folder `[name]`; `<DT>` events, omitted here, change nothing (InertRun) |
| RoundTrip.PreambleRun | sync.py:49-52 | the preamble's events leave the parser in its initial state |
| RoundTrip.CleanLinkLineRun | sync.py:35 | reading a rendered link line appends the record itself, filed under the current folder |
| RoundTrip.DocumentRoundTrip | sync.py:28-56 | parsing an exported clean tree gives back its records, each under its own path, bucket by bucket in tree order |
| RoundTrip.ExportRoundTrip | sync.py:46-56 | for clean records, parse(export(l)) has the records of l in each folder in input order, and the same records overall |
| RoundTrip.SyncRoundTrip | sync.py:8-56 | the same, for the merge of two clean lists |
| Text.StripSpec | parser.py:33 | strip removes exactly the leading and the trailing whitespace |
| Text.StripIdempotent | browser_export.py:30 | stripping twice is stripping once |
| Text.LowerIdempotent | parser.py:16 | lower-casing twice is lower-casing once |
| Text.SplitAt | browser_export.py:39 | splitting at the first `=` gives the text before it and everything after it |
| Text.NatToDecimalRoundTrip | browser_export.py:84 | the decimal text of a number reads back as that number |
| Firefox.Classify | browser_export.py:30-40 | a stripped line is blank, a section header, a `key=value` entry split at its first `=` with both sides stripped, or ignored; EntrySplit and SkippedLine state it |
| Firefox.Apply | browser_export.py:33-40 | a header closes the current section, choosing its Path when it has `Default=1` and a Path, and starts an empty one; an entry sets its key; ScanTracksSections states the scan |
| Firefox.FindProfile | browser_export.py:26-44 | the scan over all lines, the final section's check, and no profile when the Path is empty; FindProfileIsLastDefault states it |
| Firefox.FindProfileIsLastDefault | browser_export.py:26-44 | the scan returns the Path of the last section with `Default=1` and a Path, counting the section open at the end of the file, and nothing when that Path is empty |
| Firefox.LastDefaultSpec | browser_export.py:33-35 | the chosen section qualifies, no later section qualifies, and there is no choice exactly when no section qualifies |
| Firefox.ScanTracksSections | browser_export.py:28-40 | the scan's running state is the last section read so far plus the choice among the sections before it |
| Firefox.SkippedLine | browser_export.py:30-32 | blank lines and lines without `=` are skipped |
| Firefox.EntrySplit | browser_export.py:38-40 | an entry line splits at its first `=`, with key and value stripped |
| Firefox.FolderMapLastRow | browser_export.py:64 | a folder id maps to its last row's parent, with a NULL title read as the empty string |
| Firefox.BuildPath | browser_export.py:66-71 | the parent walk with a step bound, putting each title in front; BuildPathFollowsWalk, BuildPathNeedsFuel, CycleNeverStops and RankedWalkStops state it |
| Firefox.BuildPathFollowsWalk | browser_export.py:66-71 | the path is the titles along the parent walk, root to leaf; the walk stops at an unknown id or a folder whose parent is 0, and that folder is left out |
| Firefox.BuildPathNeedsFuel | browser_export.py:68 | a walk longer than the step bound gives no path |
| Firefox.CycleNeverStops | browser_export.py:68 | a folder that is its own parent gives no path for any step bound: the Python loop does not end |
| Firefox.RankedWalkStops | browser_export.py:68 | a walk ends within the bound whenever a rank strictly decreases along the parent links |
| Firefox.TitleOrUrl | browser_export.py:86 | `title or url`; TitleFallback states it |
| Firefox.AddDate | browser_export.py:84 | empty for NULL or 0, otherwise the decimal text of the microseconds divided by 1,000,000 rounded toward zero; AddDateSeconds states it |
| Firefox.FirefoxRecord | browser_export.py:83-90 | one row's record, or none when its folder walk does not end within the bound; FirefoxRecordSpec states it |
| Firefox.FirefoxRecords | browser_export.py:81-90 | the loop over the rows; FirefoxRecordsInOrder and FirefoxRecordsSpec state it |
| Firefox.ExtractFirefox | browser_export.py:64-92 | the folder map built from the folder rows, then the records of the bookmark rows; FolderMapLastRow and FirefoxRecordsSpec state it |
| Firefox.FirefoxRecordsSpec | browser_export.py:82-90 | one record per row in row order, with the folder path, the url, the title falling back to the url, and the date text; no result exactly when some row's walk does not end |
| Firefox.FirefoxRecordsInOrder | browser_export.py:82-90 | the records are the rows' own records in row order |
| Firefox.TitleFallback | browser_export.py:86 | the title is empty or None only when both the title and the url are |
| Firefox.AddDateSeconds | browser_export.py:84 | the date is empty exactly when the column is NULL or 0, and otherwise reads back as the microseconds divided by 1,000,000, rounded toward zero |
| Opera.Get | browser_export.py:121-134 | `d.get(key)`: nothing exactly when no member has the key, otherwise the value of the last member with it |
| Opera.Traverse | browser_export.py:120-121 | `traverse(node, path)`: the node's `children` (missing means none) walked in order; TraverseShift, RecordsUnderPath and ItemsInOrder state it |
| Opera.TraverseItems | browser_export.py:121-130 | the loop over the children, stopping at the first failure; ItemsInOrder and ItemsFirstError state it |
| Opera.Visit | browser_export.py:122-130 | a url entry gives one record under the current path, a folder is walked with its name appended, any other type is skipped; UrlEntryNoFallback, OtherEntrySkipped and VisitShift state it |
| Opera.VisitRoot | browser_export.py:133-136 | one root: skipped when missing or falsy, otherwise walked under its name, defaulting to its key; VisitRootUnderName states it |
| Opera.ExtractOpera | browser_export.py:132-137 | the three roots in order; ExtractOperaRoots and ExtractOperaFolders state it |
| Opera.TraverseShift | browser_export.py:120-130 | walking under p + q gives the walk under q with p put in front of every folder, and the same failures |
| Opera.RecordsUnderPath | browser_export.py:126-130 | every record of a walk under a path is filed under that path or below it |
| Opera.ItemsInOrder | browser_export.py:121-130 | the children are visited in document order: the walk succeeds exactly when every child's visit does, and its records are theirs concatenated |
| Opera.ItemsFirstError | browser_export.py:121-130 | a failed walk fails with the first failing child's error |
| Opera.OtherEntrySkipped | browser_export.py:122-130 | an entry whose type is neither url nor folder contributes nothing |
| Opera.UrlEntryNoFallback | browser_export.py:123-128 | any url entry, whatever its other members and their order, with no name and no date but a url u gives the one record with the empty title, url u and the empty date: there is no fallback to the url |
| Opera.VisitRootUnderName | browser_export.py:134-136 | a missing or falsy root gives nothing, and an unnamed root files everything under its key |
| Opera.ExtractOperaRoots | browser_export.py:132-137 | the document must be an object; without roots there are no records; otherwise the records are those of bookmark_bar, other and synced, in that order |
| Opera.ExtractOperaFolders | browser_export.py:132-137 | no Opera record sits at the top level |
| Opera.ExampleExtract | browser_export.py:120-137 | a bar named Bar with one link and one empty folder gives the link filed under Bar |

## Left out

- `gui.py`: window and dialog wiring, with no logic of its own.
- File, SQLite and JSON input and output:
  - the HTML file read and `open`/`json.load`;
  - the SQL queries;
  - the file writes.

  The model takes their results as inputs (lines, rows, a JSON value) and returns the document text.
- Profile discovery: platform directories, `~` expansion, and joining the chosen Path onto the directory of `profiles.ini` (browser_export.py:12-19, 43-48, 97-106). The model stops at the Path text the scan chooses.
- HTML tokenizing and character-reference decoding by `HTMLParser.feed`. The parser model starts from the event stream. The round trip assumes the tokenizer's events for the written lines, and it assumes record text without markup characters (`<`, `>`, `&`, `"`).
- `argparse` and the `print` in `main`.
- Opera.Visit: a name, url or date that is neither a string nor null is reported as an error (`NotText`), where Python would store the value as it is. A folder name of null is an error too, where Python would put `None` into the path. JSON numbers are integers only.
- Firefox.AddDate: the division is integer division rounded toward zero. Python divides as a float before `int()`, which agrees only while the value is exactly representable, below 2^53.
- Firefox.BuildPath: the walk takes a step bound (fuel), because the Python loop has no cycle guard and does not end on a cyclic parent chain. Termination is claimed only for walks that fit the bound; see CycleNeverStops and RankedWalkStops.
- Text.Lower: only ASCII letters are lower-cased; Python's `str.lower` also maps non-ASCII letters. `IsSpace` is Python's full `str.isspace` set, so `strip` is exact.
- FolderTree.Node: the bucket is a field of its own. In the Python code it is the dict key `"_bookmarks"`, which a folder of that name would collide with; the model does not reproduce the collision.
- RoundTrip.ExportRoundTrip: holds only for clean records, which have:
  - non-empty, stripped folder names without markup characters;
  - stripped titles;
  - urls, titles and dates that are present and free of markup characters.

  Outside these cases the Python round trip does not hold either: a `None` url is written as the text `None`, and surrounding whitespace is stripped on reading.
- `build_path` has no cycle guard and does not end on a cyclic parent chain (Firefox.CycleNeverStops). The model keeps that behaviour behind its step bound and does not add a guard.
- The export/parse round trip holds only for clean records (see RoundTrip.ExportRoundTrip above).
