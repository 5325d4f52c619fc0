/** The vault the plugin writes into, the list of archived conversations
    (`getHistoryFiles`), the name an archive gets (`saveChatHistoryToFile`)
    and the index arithmetic of the two restore commands. */
module History {
  import opened Text

  // ---------------------------------------------------------------------------
  // The vault
  // ---------------------------------------------------------------------------

  /** A file with its path, text and modification time (`stat.mtime`). */
  datatype File = File(path: string, content: string, mtime: int)

  /** The files, in the order `getFiles()` returns them, and the folders. */
  datatype Vault = Vault(files: seq<File>, folders: set<string>)

  /** Where a file with this path is, if there is one. */
  function FileIndex(files: seq<File>, path: string): (r: Option<nat>)
    ensures r.Some? ==> r.value < |files| && files[r.value].path == path
    ensures r.None? ==> forall k :: 0 <= k < |files| ==> files[k].path != path
  {
    if |files| == 0 then None
    else if files[|files| - 1].path == path then Some(|files| - 1)
    else FileIndex(files[..|files| - 1], path)
  }

  /** `getAbstractFileByPath(path)` finds something. */
  predicate Taken(v: Vault, path: string) {
    FileIndex(v.files, path).Some? || path in v.folders
  }

  /** No two files share a path, no file has a folder's path and no path is empty. */
  predicate Valid(v: Vault) {
    (forall i, j :: 0 <= i < j < |v.files| ==> v.files[i].path != v.files[j].path)
    && (forall k :: 0 <= k < |v.files| ==> v.files[k].path !in v.folders && v.files[k].path != "")
  }

  /** `vault.create(path, content)`: `None` when the promise rejects, because
      the path is empty or already taken. */
  function Create(v: Vault, path: string, content: string, mtime: int): (r: Option<Vault>)
    ensures r.None? <==> path == "" || Taken(v, path)
    ensures r.Some? ==> r.value == Vault(v.files + [File(path, content, mtime)], v.folders)
  {
    if path == "" || Taken(v, path) then None
    else Some(Vault(v.files + [File(path, content, mtime)], v.folders))
  }

  /** `vault.createFolder(path)`. */
  function CreateFolder(v: Vault, path: string): (r: Option<Vault>)
    ensures r.None? <==> path == "" || Taken(v, path)
    ensures r.Some? ==> r.value == Vault(v.files, v.folders + {path})
  {
    if path == "" || Taken(v, path) then None
    else Some(Vault(v.files, v.folders + {path}))
  }

  /** `vault.modify(file, content)` on the file at index `i`. */
  function Modify(v: Vault, i: nat, content: string, mtime: int): (r: Vault)
    requires i < |v.files|
    ensures |r.files| == |v.files| && r.folders == v.folders
    ensures r.files[i] == File(v.files[i].path, content, mtime)
    ensures forall k :: 0 <= k < |v.files| && k != i ==> r.files[k] == v.files[k]
  {
    Vault(v.files[i := File(v.files[i].path, content, mtime)], v.folders)
  }

  lemma CreatePreservesValid(v: Vault, path: string, content: string, mtime: int)
    requires Valid(v) && Create(v, path, content, mtime).Some?
    ensures Valid(Create(v, path, content, mtime).value)
  {
    var w := Create(v, path, content, mtime).value;
    forall i, j | 0 <= i < j < |w.files| ensures w.files[i].path != w.files[j].path {
      if j == |v.files| {
        assert w.files[i] == v.files[i];
      }
    }
  }

  lemma CreateFolderPreservesValid(v: Vault, path: string)
    requires Valid(v) && CreateFolder(v, path).Some?
    ensures Valid(CreateFolder(v, path).value)
  {
    assert FileIndex(v.files, path).None?;
  }

  lemma ModifyPreservesValid(v: Vault, i: nat, content: string, mtime: int)
    requires Valid(v) && i < |v.files|
    ensures Valid(Modify(v, i, content, mtime))
  {
    var w := Modify(v, i, content, mtime);
    assert forall k :: 0 <= k < |w.files| ==> w.files[k].path == v.files[k].path;
  }

  /** `saveTempChatHistory`'s write: the file at `path` is overwritten when
      there is one, created otherwise; a rejected create is swallowed. */
  function SaveLive(v: Vault, path: string, content: string, mtime: int): Vault {
    match FileIndex(v.files, path)
    case Some(i) => Modify(v, i, content, mtime)
    case None =>
      match Create(v, path, content, mtime)
      case Some(w) => w
      case None => v
  }

  /** The running transcript ends up holding `content` unless its path is
      empty or a folder's; the vault stays valid either way. */
  lemma SaveLiveStores(v: Vault, path: string, content: string, mtime: int)
    requires Valid(v)
    ensures Valid(SaveLive(v, path, content, mtime))
    ensures path != "" && path !in v.folders ==>
      var w := SaveLive(v, path, content, mtime);
      FileIndex(w.files, path).Some? && w.files[FileIndex(w.files, path).value].content == content
    ensures path == "" || path in v.folders ==> SaveLive(v, path, content, mtime) == v
  {
    var w := SaveLive(v, path, content, mtime);
    match FileIndex(v.files, path)
    case Some(i) =>
      ModifyPreservesValid(v, i, content, mtime);
      assert !(path == "" || path in v.folders) by {
        assert v.files[i].path == path;
        assert v.files[i].path !in v.folders && v.files[i].path != "";
      }
      FileIndexUnique(w, i, path);
    case None =>
      if Create(v, path, content, mtime).Some? {
        CreatePreservesValid(v, path, content, mtime);
        FileIndexUnique(w, |v.files|, path);
      }
  }

  /** In a valid vault the file found for a path is the one with that path. */
  lemma FileIndexUnique(v: Vault, i: nat, path: string)
    requires Valid(v) && i < |v.files| && v.files[i].path == path
    ensures FileIndex(v.files, path) == Some(i)
  {
    forall k | 0 <= k < |v.files| && k != i ensures v.files[k].path != path {
      if k < i {
        assert v.files[k].path != v.files[i].path;
      } else {
        assert v.files[i].path != v.files[k].path;
      }
    }
  }

  // ---------------------------------------------------------------------------
  // getHistoryFiles
  // ---------------------------------------------------------------------------

  /** The position of the last `c` in `s`, or -1 (`lastIndexOf`). */
  function LastIndexOf(s: string, c: char): (r: int)
    ensures -1 <= r < |s|
    ensures r >= 0 ==> s[r] == c && forall k :: r < k < |s| ==> s[k] != c
    ensures r == -1 ==> forall k :: 0 <= k < |s| ==> s[k] != c
  {
    if |s| == 0 then -1
    else if s[|s| - 1] == c then |s| - 1
    else LastIndexOf(s[..|s| - 1], c)
  }

  /** A file's `name`: its path after the last `/`. */
  function Name(path: string): string {
    path[LastIndexOf(path, '/') + 1..]
  }

  /** A file's `extension`: its name after the last `.`, or "" without one. */
  function Extension(path: string): string {
    var name := Name(path);
    var dot := LastIndexOf(name, '.');
    if dot >= 0 then name[dot + 1..] else ""
  }

  lemma {:induction false} LastIndexOfSuffix(a: string, c: char, b: string)
    requires c !in b
    ensures LastIndexOf(a + [c] + b, c) == |a|
    decreases |b|
  {
    var s := a + [c] + b;
    if |b| > 0 {
      assert s[..|s| - 1] == a + [c] + b[..|b| - 1];
      LastIndexOfSuffix(a, c, b[..|b| - 1]);
    } else {
      assert s[|s| - 1] == c;
    }
  }

  lemma NameAfterSlash(folder: string, name: string)
    requires '/' !in name
    ensures Name(folder + "/" + name) == name
  {
    LastIndexOfSuffix(folder, '/', name);
    assert (folder + "/" + name)[|folder| + 1..] == name;
  }

  /** A file `{stem}.md` directly inside a folder has the extension `md`. */
  lemma MarkdownExtension(folder: string, stem: string)
    requires '/' !in stem
    ensures Extension(folder + "/" + stem + ".md") == "md"
  {
    var name := stem + ".md";
    assert '/' !in name;
    assert folder + "/" + stem + ".md" == folder + "/" + name;
    NameAfterSlash(folder, name);
    LastIndexOfSuffix(stem, '.', "md");
    assert name == stem + "." + "md";
    assert name[|stem| + 1..] == "md";
  }

  /** The filter of `getHistoryFiles`: the path starts with the folder's
      path, as text, and the extension is `md`. */
  predicate InHistory(f: File, folder: string) {
    StartsWith(f.path, folder) && Extension(f.path) == "md"
  }

  /** `files.filter(keep)`, in order. */
  function Filtered(files: seq<File>, keep: File -> bool): (r: seq<File>)
    ensures forall k :: 0 <= k < |r| ==> keep(r[k]) && r[k] in files
    decreases |files|
  {
    if |files| == 0 then []
    else
      var rest := Filtered(files[1..], keep);
      if keep(files[0]) then [files[0]] + rest else rest
  }

  lemma {:induction false} FilteredKeeps(files: seq<File>, keep: File -> bool, f: File)
    requires f in files && keep(f)
    ensures f in Filtered(files, keep)
    decreases |files|
  {
    if files[0] != f {
      assert f in files[1..];
      FilteredKeeps(files[1..], keep, f);
    }
  }

  /** Newest first: no file is followed by a newer one. */
  predicate NewestFirst(files: seq<File>) {
    forall i, j :: 0 <= i < j < |files| ==> files[i].mtime >= files[j].mtime
  }

  /** `f` placed after every file at least as new as it (which keeps files
      of equal time in their original order). */
  function Insert(f: File, sorted: seq<File>): (r: seq<File>)
    ensures multiset(r) == multiset(sorted) + multiset{f}
    decreases |sorted|
  {
    if |sorted| == 0 then [f]
    else if sorted[0].mtime >= f.mtime then
      assert sorted == [sorted[0]] + sorted[1..];
      [sorted[0]] + Insert(f, sorted[1..])
    else [f] + sorted
  }

  /** A bound on every time survives an insertion of a file within it. */
  lemma {:induction false} InsertBounded(f: File, sorted: seq<File>, m: int)
    requires f.mtime <= m
    requires forall k :: 0 <= k < |sorted| ==> sorted[k].mtime <= m
    ensures forall k :: 0 <= k < |Insert(f, sorted)| ==> Insert(f, sorted)[k].mtime <= m
    decreases |sorted|
  {
    if |sorted| > 0 && sorted[0].mtime >= f.mtime {
      InsertBounded(f, sorted[1..], m);
    }
  }

  /** `.sort((a, b) => b.stat.mtime - a.stat.mtime)`, which is stable. */
  function SortNewestFirst(files: seq<File>): (r: seq<File>)
    ensures multiset(r) == multiset(files)
    decreases |files|
  {
    if |files| == 0 then []
    else
      var init := files[..|files| - 1];
      assert files == init + [files[|files| - 1]];
      Insert(files[|files| - 1], SortNewestFirst(init))
  }

  lemma {:induction false} InsertNewestFirst(f: File, sorted: seq<File>)
    requires NewestFirst(sorted)
    ensures NewestFirst(Insert(f, sorted))
    decreases |sorted|
  {
    if |sorted| > 0 && sorted[0].mtime >= f.mtime {
      var rest := sorted[1..];
      assert NewestFirst(rest) by {
        forall i, j | 0 <= i < j < |rest| ensures rest[i].mtime >= rest[j].mtime {
          assert rest[i] == sorted[i + 1] && rest[j] == sorted[j + 1];
        }
      }
      InsertNewestFirst(f, rest);
      assert forall k :: 0 <= k < |rest| ==> rest[k].mtime <= sorted[0].mtime by {
        forall k | 0 <= k < |rest| ensures rest[k].mtime <= sorted[0].mtime {
          assert rest[k] == sorted[k + 1];
        }
      }
      InsertBounded(f, rest, sorted[0].mtime);
      var ins := Insert(f, rest);
      var r := [sorted[0]] + ins;
      forall i, j | 0 <= i < j < |r| ensures r[i].mtime >= r[j].mtime {
        if i > 0 {
          assert r[i] == ins[i - 1] && r[j] == ins[j - 1];
        } else {
          assert r[j] == ins[j - 1];
        }
      }
    } else if |sorted| > 0 {
      var r := [f] + sorted;
      forall i, j | 0 <= i < j < |r| ensures r[i].mtime >= r[j].mtime {
        if i > 0 {
          assert r[i] == sorted[i - 1] && r[j] == sorted[j - 1];
        } else {
          assert r[j] == sorted[j - 1];
        }
      }
    }
  }

  lemma {:induction false} SortIsNewestFirst(files: seq<File>)
    ensures NewestFirst(SortNewestFirst(files))
    decreases |files|
  {
    if |files| > 0 {
      var init := files[..|files| - 1];
      SortIsNewestFirst(init);
      InsertNewestFirst(files[|files| - 1], SortNewestFirst(init));
    }
  }

  /** `getHistoryFiles`: nothing without a history folder that exists,
      otherwise the Markdown files under it, newest first. */
  function HistoryFiles(v: Vault, folder: string): seq<File> {
    if folder == "" || folder !in v.folders then []
    else SortNewestFirst(Filtered(v.files, f => InHistory(f, folder)))
  }

  /** The listing holds exactly the vault's Markdown files whose path starts
      with the folder's, newest first. */
  lemma HistoryFilesListing(v: Vault, folder: string)
    requires folder != "" && folder in v.folders
    ensures NewestFirst(HistoryFiles(v, folder))
    ensures forall f :: f in HistoryFiles(v, folder) <==> f in v.files && InHistory(f, folder)
  {
    var keep := f => InHistory(f, folder);
    var listed := Filtered(v.files, keep);
    SortIsNewestFirst(listed);
    forall f ensures f in HistoryFiles(v, folder) <==> f in v.files && InHistory(f, folder) {
      assert f in HistoryFiles(v, folder) <==> f in multiset(listed);
      if f in v.files && InHistory(f, folder) {
        assert keep(f);
        FilteredKeeps(v.files, keep, f);
      }
    }
  }

  /** The running transcript kept inside the history folder is listed too. */
  lemma RunningTranscriptListed(v: Vault, folder: string, i: nat)
    requires folder != "" && folder in v.folders && i < |v.files|
    requires v.files[i].path == folder + "/临时对话.md"
    ensures v.files[i] in HistoryFiles(v, folder)
  {
    var p := v.files[i].path;
    assert StartsWith(p, folder);
    assert p == folder + "/" + "临时对话" + ".md";
    MarkdownExtension(folder, "临时对话");
    HistoryFilesListing(v, folder);
  }

  /** The prefix test is on text, not on folders: a Markdown file in a
      sibling folder whose name extends the history folder's is listed too. */
  lemma SiblingFolderListed(v: Vault, folder: string, sibling: string, stem: string, i: nat)
    requires folder != "" && folder in v.folders && i < |v.files| && '/' !in stem
    requires v.files[i].path == folder + sibling + "/" + stem + ".md"
    ensures v.files[i] in HistoryFiles(v, folder)
  {
    var p := v.files[i].path;
    assert p[..|folder|] == folder;
    assert p == (folder + sibling) + "/" + stem + ".md";
    MarkdownExtension(folder + sibling, stem);
    HistoryFilesListing(v, folder);
  }

  // ---------------------------------------------------------------------------
  // The archive name
  // ---------------------------------------------------------------------------

  /** A moment, in UTC, as `toISOString` reads it. */
  datatype Instant = Instant(year: int, month: nat, day: nat, hour: nat, minute: nat, second: nat, millis: nat)

  predicate ValidInstant(t: Instant) {
    -271821 <= t.year <= 275760 && 1 <= t.month <= 12 && 1 <= t.day <= 31
    && t.hour < 24 && t.minute < 60 && t.second < 60 && t.millis < 1000
  }

  /** Four digits within 0..9999, otherwise a sign and six digits. */
  function YearText(y: int): string {
    if 0 <= y <= 9999 then Pad(y, 4)
    else if y < 0 then "-" + Pad(-y, 6)
    else "+" + Pad(y, 6)
  }

  /** `toISOString()`: `YYYY-MM-DDTHH:mm:ss.sssZ`. */
  function IsoString(t: Instant): string {
    YearText(t.year) + ("-" + (Pad(t.month, 2) + ("-" + (Pad(t.day, 2) + ("T" + (Pad(t.hour, 2)
    + (":" + (Pad(t.minute, 2) + (":" + (Pad(t.second, 2) + ("." + (Pad(t.millis, 3) + "Z"))))))))))))
  }

  /** Every character of `s` passed through `f`. */
  function MapChars(s: string, f: char -> char): (r: string)
    ensures |r| == |s|
  {
    seq(|s|, k requires 0 <= k < |s| => f(s[k]))
  }

  /** `.replace(/[:.]/g, '-')`. */
  function Dash(c: char): char {
    if c == ':' || c == '.' then '-' else c
  }

  /** `.split('T').join('_')`. */
  function Underscore(c: char): char {
    if c == 'T' then '_' else c
  }

  /** `.split('Z')[0]`: everything before the first `Z`. */
  function BeforeZ(s: string): string {
    if |s| == 0 || s[0] == 'Z' then "" else [s[0]] + BeforeZ(s[1..])
  }

  /** The timestamp in an archive's file name. */
  function ArchiveStamp(t: Instant): string {
    BeforeZ(MapChars(MapChars(IsoString(t), Dash), Underscore))
  }

  /** `${historyPath}/${timestamp}.md`. */
  function ArchivePath(folder: string, t: Instant): string {
    folder + "/" + ArchiveStamp(t) + ".md"
  }

  /** `YYYY-MM-DD_HH-mm-ss-sss`. */
  function StampLayout(t: Instant): string
    requires 0 <= t.year
  {
    Pad(t.year, 4) + ("-" + (Pad(t.month, 2) + ("-" + (Pad(t.day, 2) + ("_" + (Pad(t.hour, 2)
    + ("-" + (Pad(t.minute, 2) + ("-" + (Pad(t.second, 2) + ("-" + Pad(t.millis, 3))))))))))))
  }

  lemma MapCharsConcat(a: string, b: string, f: char -> char)
    ensures MapChars(a + b, f) == MapChars(a, f) + MapChars(b, f)
  {
  }

  lemma MapCharsDigits(s: string, f: char -> char)
    requires AllDigits(s)
    requires forall c :: IsDigit(c) ==> f(c) == c
    ensures MapChars(s, f) == s
  {
  }

  /** What the two character swaps make of the ISO string of a year in 0..9999. */
  lemma SwappedIso(t: Instant)
    requires ValidInstant(t) && 0 <= t.year <= 9999
    ensures MapChars(MapChars(IsoString(t), Dash), Underscore) == StampLayout(t) + "Z"
  {
    var fields := [Pad(t.year, 4), Pad(t.month, 2), Pad(t.day, 2), Pad(t.hour, 2),
                   Pad(t.minute, 2), Pad(t.second, 2), Pad(t.millis, 3)];
    PadDigits(t.year, 4);
    PadDigits(t.month, 2);
    PadDigits(t.day, 2);
    PadDigits(t.hour, 2);
    PadDigits(t.minute, 2);
    PadDigits(t.second, 2);
    PadDigits(t.millis, 3);
    var iso, layout := IsoString(t), StampLayout(t) + "Z";
    forall k | 0 <= k < |iso| ensures Underscore(Dash(iso[k])) == layout[k] {
      if k < 4 {
        assert iso[k] == Pad(t.year, 4)[k] && layout[k] == iso[k];
        assert IsDigit(iso[k]);
      } else {
        SwappedIsoTail(t, k);
      }
    }
    assert MapChars(MapChars(iso, Dash), Underscore) == layout;
  }

  lemma SwappedIsoTail(t: Instant, k: nat)
    requires ValidInstant(t) && 0 <= t.year <= 9999 && 4 <= k < 24
    requires AllDigits(Pad(t.month, 2)) && AllDigits(Pad(t.day, 2)) && AllDigits(Pad(t.hour, 2))
    requires AllDigits(Pad(t.minute, 2)) && AllDigits(Pad(t.second, 2)) && AllDigits(Pad(t.millis, 3))
    ensures |IsoString(t)| == 24 && |StampLayout(t) + "Z"| == 24
    ensures Underscore(Dash(IsoString(t)[k])) == (StampLayout(t) + "Z")[k]
  {
    var y := Pad(t.year, 4);
    var isoTail := "-" + (Pad(t.month, 2) + ("-" + (Pad(t.day, 2) + ("T" + (Pad(t.hour, 2)
      + (":" + (Pad(t.minute, 2) + (":" + (Pad(t.second, 2) + ("." + (Pad(t.millis, 3) + "Z")))))))))));
    var layoutTail := "-" + (Pad(t.month, 2) + ("-" + (Pad(t.day, 2) + ("_" + (Pad(t.hour, 2)
      + ("-" + (Pad(t.minute, 2) + ("-" + (Pad(t.second, 2) + ("-" + (Pad(t.millis, 3) + "Z")))))))))));
    assert IsoString(t) == y + isoTail;
    assert StampLayout(t) + "Z" == y + layoutTail by {
      AppendAssoc(y, layoutTail[..|layoutTail| - 1], "Z");
    }
    var j := k - 4;
    assert IsoString(t)[k] == isoTail[j];
    assert (StampLayout(t) + "Z")[k] == layoutTail[j];
    var digit := j in {1, 2, 4, 5, 7, 8, 10, 11, 13, 14, 16, 17, 18};
    if digit {
      assert IsDigit(isoTail[j]);
      assert isoTail[j] == layoutTail[j];
    }
  }

  lemma {:induction false} BeforeZOf(a: string, b: string)
    requires 'Z' !in a
    ensures BeforeZ(a + "Z" + b) == a
    decreases |a|
  {
    if |a| == 0 {
      assert (a + "Z" + b)[0] == 'Z';
    } else {
      assert (a + "Z" + b)[1..] == a[1..] + "Z" + b;
      assert 'Z' !in a[1..] by { assert forall k :: 0 <= k < |a| - 1 ==> a[1..][k] == a[k + 1]; }
      BeforeZOf(a[1..], b);
      assert a == [a[0]] + a[1..];
    }
  }

  lemma LayoutHasNoZ(t: Instant)
    requires ValidInstant(t) && 0 <= t.year
    ensures 'Z' !in StampLayout(t)
  {
    var s := StampLayout(t);
    PadDigits(t.year, 4);
    PadDigits(t.month, 2);
    PadDigits(t.day, 2);
    PadDigits(t.hour, 2);
    PadDigits(t.minute, 2);
    PadDigits(t.second, 2);
    PadDigits(t.millis, 3);
    NoCharInDigits(Pad(t.year, 4), 'Z');
    NoCharInDigits(Pad(t.month, 2), 'Z');
    NoCharInDigits(Pad(t.day, 2), 'Z');
    NoCharInDigits(Pad(t.hour, 2), 'Z');
    NoCharInDigits(Pad(t.minute, 2), 'Z');
    NoCharInDigits(Pad(t.second, 2), 'Z');
    NoCharInDigits(Pad(t.millis, 3), 'Z');
  }

  /** For years 0..9999 the timestamp is `YYYY-MM-DD_HH-mm-ss-sss`. */
  lemma ArchiveStampLayout(t: Instant)
    requires ValidInstant(t) && 0 <= t.year <= 9999
    ensures ArchiveStamp(t) == StampLayout(t)
  {
    SwappedIso(t);
    LayoutHasNoZ(t);
    BeforeZOf(StampLayout(t), "");
    assert StampLayout(t) + "Z" == StampLayout(t) + "Z" + "";
  }

  /** The timestamp holds no `/`, so the archive sits directly in the folder. */
  lemma StampHasNoSlash(t: Instant)
    requires ValidInstant(t) && 0 <= t.year <= 9999
    ensures '/' !in ArchiveStamp(t)
  {
    ArchiveStampLayout(t);
    PadDigits(t.year, 4);
    PadDigits(t.month, 2);
    PadDigits(t.day, 2);
    PadDigits(t.hour, 2);
    PadDigits(t.minute, 2);
    PadDigits(t.second, 2);
    PadDigits(t.millis, 3);
    NoCharInDigits(Pad(t.year, 4), '/');
    NoCharInDigits(Pad(t.month, 2), '/');
    NoCharInDigits(Pad(t.day, 2), '/');
    NoCharInDigits(Pad(t.hour, 2), '/');
    NoCharInDigits(Pad(t.minute, 2), '/');
    NoCharInDigits(Pad(t.second, 2), '/');
    NoCharInDigits(Pad(t.millis, 3), '/');
  }

  /** An archive written into the history folder is listed. */
  lemma ArchiveFileListed(v: Vault, folder: string, t: Instant, i: nat)
    requires folder != "" && folder in v.folders && i < |v.files|
    requires ValidInstant(t) && 0 <= t.year <= 9999
    requires v.files[i].path == ArchivePath(folder, t)
    ensures v.files[i] in HistoryFiles(v, folder)
  {
    var p := v.files[i].path;
    StampHasNoSlash(t);
    MarkdownExtension(folder, ArchiveStamp(t));
    assert p == folder + ("/" + ArchiveStamp(t) + ".md");
    assert StartsWith(p, folder);
    HistoryFilesListing(v, folder);
  }

  /** Two moments a millisecond or more apart get different archive names. */
  lemma ArchiveStampInjective(t1: Instant, t2: Instant)
    requires ValidInstant(t1) && 0 <= t1.year <= 9999
    requires ValidInstant(t2) && 0 <= t2.year <= 9999
    requires ArchiveStamp(t1) == ArchiveStamp(t2)
    ensures t1 == t2
  {
    ArchiveStampLayout(t1);
    ArchiveStampLayout(t2);
    LayoutFields(t1, t2);
    assert Pow10(2) == 100 && Pow10(3) == 1000 && Pow10(4) == 10000;
    PadInjective(t1.year, t2.year, 4);
    PadInjective(t1.month, t2.month, 2);
    PadInjective(t1.day, t2.day, 2);
    PadInjective(t1.hour, t2.hour, 2);
    PadInjective(t1.minute, t2.minute, 2);
    PadInjective(t1.second, t2.second, 2);
    PadInjective(t1.millis, t2.millis, 3);
  }

  lemma PadInjective(x: nat, y: nat, width: nat)
    requires x < Pow10(width) && y < Pow10(width) && Pad(x, width) == Pad(y, width)
    ensures x == y
  {
    PadValue(x, width);
    PadValue(y, width);
  }

  lemma PeelField(a1: string, r1: string, a2: string, r2: string, sep: string)
    requires a1 + (sep + r1) == a2 + (sep + r2) && |a1| == |a2|
    ensures a1 == a2 && r1 == r2
  {
    assert a1 == (a1 + (sep + r1))[..|a1|];
    assert sep + r1 == (a1 + (sep + r1))[|a1|..];
    assert r1 == (sep + r1)[|sep|..];
  }

  /** Equal layouts have equal fields. */
  lemma LayoutFields(t1: Instant, t2: Instant)
    requires 0 <= t1.year && 0 <= t2.year && StampLayout(t1) == StampLayout(t2)
    ensures Pad(t1.year, 4) == Pad(t2.year, 4) && Pad(t1.month, 2) == Pad(t2.month, 2)
    ensures Pad(t1.day, 2) == Pad(t2.day, 2) && Pad(t1.hour, 2) == Pad(t2.hour, 2)
    ensures Pad(t1.minute, 2) == Pad(t2.minute, 2) && Pad(t1.second, 2) == Pad(t2.second, 2)
    ensures Pad(t1.millis, 3) == Pad(t2.millis, 3)
  {
    var s1, s2 := Pad(t1.millis, 3), Pad(t2.millis, 3);
    var e1, e2 := Pad(t1.second, 2) + ("-" + s1), Pad(t2.second, 2) + ("-" + s2);
    var d1, d2 := Pad(t1.minute, 2) + ("-" + e1), Pad(t2.minute, 2) + ("-" + e2);
    var c1, c2 := Pad(t1.hour, 2) + ("-" + d1), Pad(t2.hour, 2) + ("-" + d2);
    var b1, b2 := Pad(t1.day, 2) + ("_" + c1), Pad(t2.day, 2) + ("_" + c2);
    var a1, a2 := Pad(t1.month, 2) + ("-" + b1), Pad(t2.month, 2) + ("-" + b2);
    assert StampLayout(t1) == Pad(t1.year, 4) + ("-" + a1);
    assert StampLayout(t2) == Pad(t2.year, 4) + ("-" + a2);
    PeelField(Pad(t1.year, 4), a1, Pad(t2.year, 4), a2, "-");
    PeelField(Pad(t1.month, 2), b1, Pad(t2.month, 2), b2, "-");
    PeelField(Pad(t1.day, 2), c1, Pad(t2.day, 2), c2, "_");
    PeelField(Pad(t1.hour, 2), d1, Pad(t2.hour, 2), d2, "-");
    PeelField(Pad(t1.minute, 2), e1, Pad(t2.minute, 2), e2, "-");
    PeelField(Pad(t1.second, 2), s1, Pad(t2.second, 2), s2, "-");
  }

  // ---------------------------------------------------------------------------
  // The restore commands
  // ---------------------------------------------------------------------------

  /** `files.findIndex(f => f.path === path)`. */
  function IndexOfPath(files: seq<File>, path: string): (r: int)
    ensures -1 <= r < |files|
    ensures r >= 0 ==> files[r].path == path && forall j :: 0 <= j < r ==> files[j].path != path
    ensures r == -1 ==> forall j :: 0 <= j < |files| ==> files[j].path != path
  {
    if |files| == 0 then -1
    else if files[0].path == path then 0
    else
      var r := IndexOfPath(files[1..], path);
      if r == -1 then -1 else r + 1
  }

  /** Alt+Up: the next older archive, the newest when none is open. */
  function OlderIndex(current: int, n: nat): int
    requires n > 0 && -1 <= current < n
  {
    if current == -1 then 0 else if current + 1 < n - 1 then current + 1 else n - 1
  }

  /** Alt+Down: the next newer archive, the newest when none is open. */
  function NewerIndex(current: int, n: nat): int
    requires n > 0 && -1 <= current < n
  {
    if current == -1 then 0 else if current - 1 > 0 then current - 1 else 0
  }

  /** Both commands pick a listed file, and stay put only at their end of
      the list. */
  lemma RestoreIndexRange(current: int, n: nat)
    requires n > 0 && -1 <= current < n
    ensures 0 <= OlderIndex(current, n) < n && 0 <= NewerIndex(current, n) < n
    ensures OlderIndex(current, n) == current <==> current == n - 1
    ensures NewerIndex(current, n) == current <==> current == 0
    ensures current != -1 && current < n - 1 ==> OlderIndex(current, n) == current + 1
    ensures current > 0 ==> NewerIndex(current, n) == current - 1
  {
  }

  /** Going one older and then one newer comes back, away from the oldest. */
  lemma OlderThenNewer(current: int, n: nat)
    requires n > 0 && 0 <= current < n - 1
    ensures NewerIndex(OlderIndex(current, n), n) == current
  {
  }

  /** In a listing without repeated paths, the file loaded is found again
      at the index it was loaded from. */
  lemma LoadedFileFound(files: seq<File>, i: nat)
    requires i < |files|
    requires forall a, b :: 0 <= a < b < |files| ==> files[a].path != files[b].path
    ensures IndexOfPath(files, files[i].path) == i
  {
    assert forall j :: 0 <= j < i ==> files[j].path != files[i].path;
  }

  /** The listing of a valid vault repeats no path. */
  lemma ListingDistinct(v: Vault, folder: string)
    requires Valid(v)
    ensures var files := HistoryFiles(v, folder);
      forall a, b :: 0 <= a < b < |files| ==> files[a].path != files[b].path
  {
    var files := HistoryFiles(v, folder);
    if folder != "" && folder in v.folders {
      var listed := Filtered(v.files, f => InHistory(f, folder));
      FilteredDistinct(v.files, f => InHistory(f, folder));
      SortedDistinct(listed);
    }
  }

  predicate DistinctPaths(files: seq<File>) {
    forall a, b :: 0 <= a < b < |files| ==> files[a].path != files[b].path
  }

  lemma {:induction false} FilteredDistinct(files: seq<File>, keep: File -> bool)
    requires DistinctPaths(files)
    ensures DistinctPaths(Filtered(files, keep))
    decreases |files|
  {
    if |files| > 0 {
      var rest := files[1..];
      assert DistinctPaths(rest) by {
        forall a, b | 0 <= a < b < |rest| ensures rest[a].path != rest[b].path {
          assert rest[a] == files[a + 1] && rest[b] == files[b + 1];
        }
      }
      FilteredDistinct(rest, keep);
      var fr := Filtered(rest, keep);
      if keep(files[0]) {
        var r := [files[0]] + fr;
        forall a, b | 0 <= a < b < |r| ensures r[a].path != r[b].path {
          if a == 0 {
            assert r[b] in rest;
            var k :| 0 <= k < |rest| && rest[k] == r[b];
            assert files[k + 1] == r[b];
          } else {
            assert r[a] == fr[a - 1] && r[b] == fr[b - 1];
          }
        }
      }
    }
  }

  /** Placing a file whose path is new keeps the paths distinct. */
  lemma {:induction false} InsertDistinct(f: File, sorted: seq<File>)
    requires DistinctPaths(sorted)
    requires forall k :: 0 <= k < |sorted| ==> sorted[k].path != f.path
    ensures DistinctPaths(Insert(f, sorted))
    decreases |sorted|
  {
    if |sorted| > 0 && sorted[0].mtime >= f.mtime {
      var rest := sorted[1..];
      assert DistinctPaths(rest) by {
        forall a, b | 0 <= a < b < |rest| ensures rest[a].path != rest[b].path {
          assert rest[a] == sorted[a + 1] && rest[b] == sorted[b + 1];
        }
      }
      InsertDistinct(f, rest);
      var ins := Insert(f, rest);
      var r := [sorted[0]] + ins;
      assert forall k :: 0 <= k < |rest| ==> rest[k].path != sorted[0].path by {
        forall k | 0 <= k < |rest| ensures rest[k].path != sorted[0].path {
          assert rest[k] == sorted[k + 1];
        }
      }
      InsertAvoids(f, rest, sorted[0].path);
      forall a, b | 0 <= a < b < |r| ensures r[a].path != r[b].path {
        if a == 0 {
          assert r[b] == ins[b - 1];
        } else {
          assert r[a] == ins[a - 1] && r[b] == ins[b - 1];
        }
      }
    } else if |sorted| > 0 {
      var r := [f] + sorted;
      forall a, b | 0 <= a < b < |r| ensures r[a].path != r[b].path {
        if a > 0 {
          assert r[a] == sorted[a - 1] && r[b] == sorted[b - 1];
        }
      }
    }
  }

  /** Inserting a file whose path differs from `p` into files whose paths all
      differ from `p` gives files whose paths all differ from `p`. */
  lemma InsertAvoids(f: File, sorted: seq<File>, p: string)
    requires f.path != p
    requires forall k :: 0 <= k < |sorted| ==> sorted[k].path != p
    ensures forall k :: 0 <= k < |Insert(f, sorted)| ==> Insert(f, sorted)[k].path != p
  {
    var ins := Insert(f, sorted);
    forall k | 0 <= k < |ins| ensures ins[k].path != p {
      var x := ins[k];
      assert x in multiset(sorted) + multiset{f};
      if x != f {
        assert x in sorted;
        var j :| 0 <= j < |sorted| && sorted[j] == x;
      }
    }
  }

  /** Sorting keeps the paths distinct. */
  lemma {:induction false} SortedDistinct(files: seq<File>)
    requires DistinctPaths(files)
    ensures DistinctPaths(SortNewestFirst(files))
    decreases |files|
  {
    if |files| > 0 {
      var last := |files| - 1;
      var init := files[..last];
      assert DistinctPaths(init) by {
        forall a, b | 0 <= a < b < |init| ensures init[a].path != init[b].path {
          assert init[a] == files[a] && init[b] == files[b];
        }
      }
      SortedDistinct(init);
      var sorted := SortNewestFirst(init);
      forall k | 0 <= k < |sorted| ensures sorted[k].path != files[last].path {
        assert sorted[k] in multiset(init);
        var j :| 0 <= j < |init| && init[j] == sorted[k];
        assert files[j] == sorted[k];
      }
      InsertDistinct(files[last], sorted);
    }
  }
}
