/** The Firefox adapter's pure kernels: the `profiles.ini` scan that picks the
    default profile, the folder-path walk over the `moz_bookmarks` folder rows,
    and the construction of one record per bookmark row. The file system and
    the SQLite queries are left to the caller: their results come in as
    sequences of lines and rows. */
module Firefox {
  import opened Records
  import opened Text
  import opened Seqs

  // ----- profiles.ini -----

  /** The keys and values read so far in one section (`current`). */
  type Section = map<string, string>

  /** How the scan treats one line, once stripped: skipped when blank, a
      section header when it starts with `[`, a `key=value` entry split at
      the first `=` with both halves stripped, and ignored otherwise. */
  datatype IniLine = Blank | Header | Entry(key: string, value: string) | Ignored

  function Classify(raw: string): IniLine {
    ClassifyStripped(Strip(raw))
  }

  function ClassifyStripped(line: string): IniLine {
    if line == "" then Blank
    else if StartsWith(line, "[") then Header
    else if '=' in line then
      var kv := SplitFirst(line, '=');
      Entry(Strip(kv.0), Strip(kv.1))
    else Ignored
  }

  /** `current.get("Default") == "1" and "Path" in current`. */
  predicate IsDefault(sec: Section) {
    "Default" in sec && sec["Default"] == "1" && "Path" in sec
  }

  /** The profile after a section is closed: its `Path` when it qualifies,
      otherwise the profile chosen before. */
  function Chosen(sec: Section, profile: Option<string>): Option<string> {
    if IsDefault(sec) then Some(sec["Path"]) else profile
  }

  /** The scan's two variables: the open section and the profile chosen so far. */
  datatype Scan = Scan(current: Section, profile: Option<string>)

  /** One pass of the loop body. */
  function ScanLine(st: Scan, raw: string): Scan {
    Apply(st, Classify(raw))
  }

  function Apply(st: Scan, c: IniLine): Scan {
    match c
    case Header => Scan(map[], Chosen(st.current, st.profile))
    case Entry(k, v) => st.(current := st.current[k := v])
    case _ => st
  }

  /** The loop over the lines, from state `st`. */
  function ScanFrom(st: Scan, lines: seq<string>): Scan
    decreases |lines|
  {
    if |lines| == 0 then st else ScanLine(ScanFrom(st, lines[..|lines| - 1]), lines[|lines| - 1])
  }

  /** `_find_firefox_profile` once the file's lines are read: the `Path` of the
      chosen section as written in the file, the open section at the end
      included; None when no section qualifies or the chosen path is empty.
      Resolving the path against the directory of the file is not modelled. */
  function FindProfile(lines: seq<string>): Option<string> {
    var st := ScanFrom(Scan(map[], None), lines);
    var p := Chosen(st.current, st.profile);
    if p.None? || p.value == "" then None else p
  }

  // The reference reading of the file: its sections, each as the map of its
  // entries, and the last section that qualifies.

  /** The sections of the file in order, the one still open at the end last;
      lines before the first header form a nameless first section. */
  function Sections(lines: seq<string>): (ss: seq<Section>)
    ensures |ss| >= 1
    decreases |lines|
  {
    if |lines| == 0 then [map[]] else AddLine(Sections(lines[..|lines| - 1]), Classify(lines[|lines| - 1]))
  }

  /** A header opens a new section; an entry goes into the last one. */
  function AddLine(ss: seq<Section>, c: IniLine): (r: seq<Section>)
    requires |ss| >= 1
    ensures |r| >= 1
  {
    match c
    case Header => ss + [map[]]
    case Entry(k, v) => ss[..|ss| - 1] + [ss[|ss| - 1][k := v]]
    case _ => ss
  }

  /** The `Path` of the last qualifying section of `ss`, if any. */
  function LastDefault(ss: seq<Section>): Option<string>
    decreases |ss|
  {
    if |ss| == 0 then None
    else if IsDefault(ss[|ss| - 1]) then Some(ss[|ss| - 1]["Path"])
    else LastDefault(ss[..|ss| - 1])
  }

  /** `LastDefault` picks the last qualifying section, and finds none only when
      no section qualifies. */
  lemma {:induction false} LastDefaultSpec(ss: seq<Section>)
    ensures LastDefault(ss).None? <==> forall i :: 0 <= i < |ss| ==> !IsDefault(ss[i])
    ensures LastDefault(ss).Some? ==>
      exists i :: 0 <= i < |ss| && IsDefault(ss[i]) && ss[i]["Path"] == LastDefault(ss).value
                  && forall j :: i < j < |ss| ==> !IsDefault(ss[j])
    decreases |ss|
  {
    if |ss| > 0 && !IsDefault(ss[|ss| - 1]) {
      var pre := ss[..|ss| - 1];
      LastDefaultSpec(pre);
      assert forall i :: 0 <= i < |pre| ==> pre[i] == ss[i];
      if LastDefault(pre).Some? {
        var i :| 0 <= i < |pre| && IsDefault(pre[i]) && pre[i]["Path"] == LastDefault(pre).value
                 && forall j :: i < j < |pre| ==> !IsDefault(pre[j]);
        assert IsDefault(ss[i]) && forall j :: i < j < |ss| ==> !IsDefault(ss[j]);
      }
    } else if |ss| > 0 {
      assert IsDefault(ss[|ss| - 1]);
    }
  }

  /** The scan keeps exactly the open section and the last qualifying section
      among those already closed. */
  lemma {:induction false} ScanTracksSections(lines: seq<string>)
    ensures var st := ScanFrom(Scan(map[], None), lines);
      var ss := Sections(lines);
      st.current == ss[|ss| - 1] && st.profile == LastDefault(ss[..|ss| - 1])
    decreases |lines|
  {
    if |lines| > 0 {
      var pre := lines[..|lines| - 1];
      ScanTracksSections(pre);
      ApplyTracks(ScanFrom(Scan(map[], None), pre), Sections(pre), Classify(lines[|lines| - 1]));
    }
  }

  /** One line, as the scan and as the reading into sections. */
  lemma ApplyTracks(st: Scan, ss: seq<Section>, c: IniLine)
    requires |ss| >= 1
    requires st.current == ss[|ss| - 1] && st.profile == LastDefault(ss[..|ss| - 1])
    ensures var r := AddLine(ss, c);
      Apply(st, c).current == r[|r| - 1] && Apply(st, c).profile == LastDefault(r[..|r| - 1])
  {
    match c
    case Header =>
      TakeSnoc(ss, map[]);
      SnocSplit(ss);
    case Entry(k, v) =>
      TakeSnoc(ss[..|ss| - 1], ss[|ss| - 1][k := v]);
    case _ =>
  }

  /** The profile chosen is the `Path` of the last qualifying section of the
      file, provided it is not empty. */
  lemma FindProfileIsLastDefault(lines: seq<string>)
    ensures FindProfile(lines)
         == var p := LastDefault(Sections(lines)); if p.None? || p.value == "" then None else p
  {
    ScanTracksSections(lines);
    var ss := Sections(lines);
    SnocSplit(ss);
  }

  /** Handling lines one after another is handling their concatenation. */
  lemma {:induction false} ScanFromAppend(st: Scan, a: seq<string>, b: seq<string>)
    ensures ScanFrom(st, a + b) == ScanFrom(ScanFrom(st, a), b)
    decreases |b|
  {
    if |b| == 0 {
      AppendNil(a, b);
    } else {
      DropLastAppend(a, b);
      ScanFromAppend(st, a, b[..|b| - 1]);
    }
  }

  /** A blank line, or a line that is neither a header nor an entry, can be
      removed without changing the outcome of the scan. */
  lemma SkippedLine(st: Scan, a: seq<string>, line: string, b: seq<string>)
    requires Classify(line) == Blank || Classify(line) == Ignored
    ensures ScanFrom(st, a + [line] + b) == ScanFrom(st, a + b)
  {
    ScanFromAppend(st, a + [line], b);
    ScanFromAppend(st, a, b);
    TakeSnoc(a, line);
  }

  /** An entry line is split at its first `=`: whatever follows, further `=`
      signs included, is the value, and both halves are stripped. */
  lemma EntrySplit(raw: string, k: string, v: string)
    requires Strip(raw) == k + "=" + v && '=' !in k
    requires |k| == 0 || k[0] != '['
    ensures Classify(raw) == Entry(Strip(k), Strip(v))
  {
    EntryLine(Strip(raw), k, v);
  }

  lemma EntryLine(line: string, k: string, v: string)
    requires line == k + "=" + v && '=' !in k
    requires |k| == 0 || k[0] != '['
    ensures ClassifyStripped(line) == Entry(Strip(k), Strip(v))
  {
    SplitAt(line, '=', k, v);
    assert line[..1] == [line[0]];
    assert line[0] == if |k| == 0 then '=' else k[0];
  }

  // ----- folder paths -----

  /** A folder row's parent id and title, the title `None` read as "". */
  datatype Folder = Folder(parent: int, title: string)

  /** One row of `SELECT id, parent, title FROM moz_bookmarks WHERE type=2`. */
  datatype FolderRow = FolderRow(id: int, parent: int, title: Option<string>)

  /** `row[2] or ""`. */
  function TitleOrEmpty(t: Option<string>): string {
    if t.Some? then t.value else ""
  }

  /** The `folders` dict: one entry per folder id, a later row with the same id
      replacing an earlier one. */
  function FolderMap(rows: seq<FolderRow>): (m: map<int, Folder>)
    ensures forall id :: id in m <==> exists i :: 0 <= i < |rows| && rows[i].id == id
    decreases |rows|
  {
    if |rows| == 0 then map[]
    else
      var pre := rows[..|rows| - 1];
      var r := rows[|rows| - 1];
      assert forall i :: 0 <= i < |pre| ==> pre[i] == rows[i];
      FolderMap(pre)[r.id := Folder(r.parent, TitleOrEmpty(r.title))]
  }

  /** The entry for an id comes from the last row carrying that id. */
  lemma {:induction false} FolderMapLastRow(rows: seq<FolderRow>, i: int)
    requires 0 <= i < |rows|
    requires forall j :: i < j < |rows| ==> rows[j].id != rows[i].id
    ensures rows[i].id in FolderMap(rows)
    ensures FolderMap(rows)[rows[i].id] == Folder(rows[i].parent, TitleOrEmpty(rows[i].title))
    decreases |rows|
  {
    if i < |rows| - 1 {
      FolderMapLastRow(rows[..|rows| - 1], i);
    }
  }

  /** The folder walk goes on from `id` while `id` is a known folder whose
      parent is not 0. */
  predicate Continues(folders: map<int, Folder>, id: int) {
    id in folders && folders[id].parent != 0
  }

  /** `build_path`: the titles met walking up from `id`, listed root first.
      The source loop has no cycle guard; `fuel` bounds the number of steps,
      and None stands for a walk that needs more steps than that (for a cyclic
      parent chain, every bound; see `CycleNeverStops`). */
  function BuildPath(folders: map<int, Folder>, id: int, fuel: nat): Option<seq<string>>
    decreases fuel
  {
    if !Continues(folders, id) then Some([])
    else if fuel == 0 then None
    else
      match BuildPath(folders, folders[id].parent, fuel - 1)
      case None => None
      case Some(p) => Some(p + [folders[id].title])
  }

  /** `c` is the walk from `c[0]`: each id but the last continues to its
      parent, the next id, and the last one stops the walk. */
  predicate IsWalk(folders: map<int, Folder>, c: seq<int>) {
    && |c| >= 1
    && (forall i :: 0 <= i < |c| - 1 ==> Continues(folders, c[i]) && c[i + 1] == folders[c[i]].parent)
    && !Continues(folders, c[|c| - 1])
  }

  /** The titles of the folders a walk passes through, the last one visited
      (the outermost) first. */
  function WalkTitles(folders: map<int, Folder>, c: seq<int>): (r: seq<string>)
    requires IsWalk(folders, c)
    ensures |r| == |c| - 1
    ensures forall i :: 0 <= i < |c| - 1 ==> r[|c| - 2 - i] == folders[c[i]].title
  {
    seq(|c| - 1, k requires 0 <= k < |c| - 1 => folders[c[|c| - 2 - k]].title)
  }

  /** Given enough steps, `build_path` returns the titles along the walk
      from the outermost folder in, the stopping id excluded. */
  lemma {:induction false} BuildPathFollowsWalk(folders: map<int, Folder>, c: seq<int>, fuel: nat)
    requires IsWalk(folders, c) && |c| - 1 <= fuel
    ensures BuildPath(folders, c[0], fuel) == Some(WalkTitles(folders, c))
    decreases |c|
  {
    if |c| > 1 {
      var c' := c[1..];
      assert IsWalk(folders, c') by {
        forall i | 0 <= i < |c'| - 1 ensures Continues(folders, c'[i]) && c'[i + 1] == folders[c'[i]].parent {
          assert c'[i] == c[i + 1] && c'[i + 1] == c[i + 2];
        }
      }
      BuildPathFollowsWalk(folders, c', fuel - 1);
      assert WalkTitles(folders, c) == WalkTitles(folders, c') + [folders[c[0]].title];
    }
  }

  /** A walk needs as many steps as it has folders: less fuel is not enough. */
  lemma {:induction false} BuildPathNeedsFuel(folders: map<int, Folder>, c: seq<int>, fuel: nat)
    requires IsWalk(folders, c) && fuel < |c| - 1
    ensures BuildPath(folders, c[0], fuel) == None
    decreases fuel
  {
    var c' := c[1..];
    if fuel > 0 {
      assert IsWalk(folders, c') by {
        forall i | 0 <= i < |c'| - 1 ensures Continues(folders, c'[i]) && c'[i + 1] == folders[c'[i]].parent {
          assert c'[i] == c[i + 1] && c'[i + 1] == c[i + 2];
        }
      }
      BuildPathNeedsFuel(folders, c', fuel - 1);
    }
  }

  /** A folder that is its own parent (any cycle, in general) keeps the walk
      going for ever: no bound is enough. */
  lemma {:induction false} CycleNeverStops(folders: map<int, Folder>, id: int, fuel: nat)
    requires Continues(folders, id) && folders[id].parent == id
    ensures BuildPath(folders, id, fuel) == None
    decreases fuel
  {
    if fuel > 0 {
      CycleNeverStops(folders, id, fuel - 1);
    }
  }

  /** When parents always rank below their children, the walk from `id`
      stops within `rank(id)` steps. */
  lemma {:induction false} RankedWalkStops(folders: map<int, Folder>, rank: int -> nat, id: int, fuel: nat)
    requires forall x :: Continues(folders, x) ==> rank(folders[x].parent) < rank(x)
    requires rank(id) <= fuel
    ensures BuildPath(folders, id, fuel).Some?
    decreases fuel
  {
    if Continues(folders, id) {
      RankedWalkStops(folders, rank, folders[id].parent, fuel - 1);
    }
  }

  // ----- bookmark rows -----

  /** One row of the bookmark query: the parent folder id, the place's url,
      the title (the bookmark's own, else the place's), and `dateAdded` in
      microseconds; SQL NULL is None. */
  datatype PlaceRow = PlaceRow(parent: int, url: Option<string>, title: Option<string>, dateAdded: Option<int>)

  /** Python truthiness of a text column. */
  predicate Truthy(t: Option<string>) {
    t.Some? && t.value != ""
  }

  /** `title or url`. */
  function TitleOrUrl(title: Option<string>, url: Option<string>): Option<string> {
    if Truthy(title) then title else url
  }

  /** `int(x)` of the quotient `a / b`: truncation toward zero. */
  function TruncDiv(a: int, b: int): int
    requires b > 0
  {
    if a >= 0 then a / b else -((-a) / b)
  }

  const MicrosPerSecond: int := 1_000_000

  /** `str(int(date_added / 1_000_000)) if date_added else ""`: whole seconds
      as decimal text, or the empty string when the column is NULL or 0. */
  function AddDate(d: Option<int>): string {
    if d.None? || d.value == 0 then "" else IntToDecimal(TruncDiv(d.value, MicrosPerSecond))
  }

  /** The record built from one bookmark row, the folder path walked with at
      most `fuel` steps. */
  function FirefoxRecord(folders: map<int, Folder>, row: PlaceRow, fuel: nat): Option<Bookmark> {
    match BuildPath(folders, row.parent, fuel)
    case None => None
    case Some(path) =>
      Some(Bookmark(TitleOrUrl(row.title, row.url), row.url, path, Some(AddDate(row.dateAdded))))
  }

  /** The loop of `extract_firefox_bookmarks` over the bookmark rows, one
      record per row in row order; None when some folder walk needs more than
      `fuel` steps. */
  function FirefoxRecords(folders: map<int, Folder>, rows: seq<PlaceRow>, fuel: nat): (r: Option<seq<Bookmark>>)
    decreases |rows|
  {
    if |rows| == 0 then Some([])
    else
      match (FirefoxRecords(folders, rows[..|rows| - 1], fuel), FirefoxRecord(folders, rows[|rows| - 1], fuel))
      case (Some(bs), Some(b)) => Some(bs + [b])
      case _ => None
  }

  /** `extract_firefox_bookmarks` once both queries have run. */
  function ExtractFirefox(folderRows: seq<FolderRow>, placeRows: seq<PlaceRow>, fuel: nat): Option<seq<Bookmark>> {
    FirefoxRecords(FolderMap(folderRows), placeRows, fuel)
  }

  /** One row's record: present exactly when its folder walk ends within
      the fuel, and then filed under that path, with the url as stored, the
      title falling back to the url, and the date text. */
  lemma FirefoxRecordSpec(folders: map<int, Folder>, row: PlaceRow, fuel: nat)
    ensures FirefoxRecord(folders, row, fuel).Some? <==> BuildPath(folders, row.parent, fuel).Some?
    ensures FirefoxRecord(folders, row, fuel).Some? ==>
      var b := FirefoxRecord(folders, row, fuel).value;
      && b.folder == BuildPath(folders, row.parent, fuel).value
      && b.url == row.url
      && b.title == TitleOrUrl(row.title, row.url)
      && b.addDate == Some(AddDate(row.dateAdded))
  {
  }

  /** The records are the rows' records in row order, and there is a result
      exactly when no row's record is missing. */
  lemma {:induction false} FirefoxRecordsInOrder(folders: map<int, Folder>, rows: seq<PlaceRow>, fuel: nat)
    ensures FirefoxRecords(folders, rows, fuel).Some?
        <==> forall i :: 0 <= i < |rows| ==> FirefoxRecord(folders, rows[i], fuel).Some?
    ensures FirefoxRecords(folders, rows, fuel).Some? ==>
      && |FirefoxRecords(folders, rows, fuel).value| == |rows|
      && forall i :: 0 <= i < |rows| ==>
           FirefoxRecords(folders, rows, fuel).value[i] == FirefoxRecord(folders, rows[i], fuel).value
    decreases |rows|
  {
    if |rows| > 0 {
      var pre := rows[..|rows| - 1];
      FirefoxRecordsInOrder(folders, pre, fuel);
      assert forall i :: 0 <= i < |pre| ==> pre[i] == rows[i];
    }
  }

  /** The two together: one record per row, in row order, each with its
      folder path, url, title fallback and date text; and no result exactly
      when some row's folder walk does not end within the fuel. */
  lemma FirefoxRecordsSpec(folders: map<int, Folder>, rows: seq<PlaceRow>, fuel: nat)
    ensures FirefoxRecords(folders, rows, fuel).Some?
        <==> forall i :: 0 <= i < |rows| ==> BuildPath(folders, rows[i].parent, fuel).Some?
    ensures FirefoxRecords(folders, rows, fuel).Some? ==>
      var bs := FirefoxRecords(folders, rows, fuel).value;
      && |bs| == |rows|
      && forall i :: 0 <= i < |rows| ==>
           && bs[i].folder == BuildPath(folders, rows[i].parent, fuel).value
           && bs[i].url == rows[i].url
           && bs[i].title == TitleOrUrl(rows[i].title, rows[i].url)
           && bs[i].addDate == Some(AddDate(rows[i].dateAdded))
  {
    FirefoxRecordsInOrder(folders, rows, fuel);
    forall i | 0 <= i < |rows| {
      FirefoxRecordSpec(folders, rows[i], fuel);
    }
  }

  /** The title is empty or missing only when both the title and the url are. */
  lemma TitleFallback(title: Option<string>, url: Option<string>)
    ensures Truthy(TitleOrUrl(title, url)) <==> Truthy(title) || Truthy(url)
    ensures Truthy(title) ==> TitleOrUrl(title, url) == title
  {
  }

  /** The date text is empty exactly when the column is NULL or 0; otherwise it
      reads back as the number of whole seconds, rounded toward zero. */
  lemma AddDateSeconds(d: Option<int>)
    ensures AddDate(d) == "" <==> d.None? || d.value == 0
    ensures d.Some? && d.value > 0 ==> DecimalValue(AddDate(d)) == d.value / MicrosPerSecond
    ensures d.Some? && d.value < 0 ==> AddDate(d) == if d.value > -MicrosPerSecond then "0"
                                                    else "-" + NatToDecimal((-d.value) / MicrosPerSecond)
  {
    if d.Some? && d.value > 0 {
      NatToDecimalRoundTrip(d.value / MicrosPerSecond);
    }
  }
}
