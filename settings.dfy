/** The plugin's settings: their defaults, how `loadSettings` repairs what
    was stored, the list editors of the settings tab, the history-folder
    setting, the labels shown for API keys and the Ctrl+wheel font size. */
module PluginSettings {
  import opened Text
  import opened Transcript
  import opened Request

  datatype Settings = Settings(
    apiKey: seq<string>, baseUrl: seq<string>, model: seq<string>,
    currentApiKey: string, currentBaseUrl: string, currentModel: string,
    chatHistory: seq<Turn>, currentHistoryFile: string, tempHistoryFile: string,
    fontSize: int, historyPath: string)

  /** `DEFAULT_SETTINGS`. */
  const Defaults := Settings([], [], [], "", "https://yunwu.ai", "gpt-4", [], "", "", 14, "")

  /** The name of the running transcript inside the history folder. */
  const TempName := "临时对话.md"

  /** A stored list: an array, or a single value written by an older version. */
  datatype StoredList = List(items: seq<string>) | Scalar(value: string)

  /** What `loadData()` returns; `None` is a key that is absent. */
  datatype Stored = Stored(
    apiKey: Option<StoredList>, baseUrl: Option<StoredList>, model: Option<StoredList>,
    currentApiKey: Option<string>, currentBaseUrl: Option<string>, currentModel: Option<string>,
    chatHistory: Option<seq<Turn>>, currentHistoryFile: Option<string>,
    tempHistoryFile: Option<string>, fontSize: Option<int>, historyPath: Option<string>)

  /** Nothing stored yet. */
  const NothingStored := Stored(None, None, None, None, None, None, None, None, None, None, None)

  /** `saveData(this.settings)`: every key present, lists as arrays. */
  function Saved(s: Settings): Stored {
    Stored(Some(List(s.apiKey)), Some(List(s.baseUrl)), Some(List(s.model)),
           Some(s.currentApiKey), Some(s.currentBaseUrl), Some(s.currentModel),
           Some(s.chatHistory), Some(s.currentHistoryFile), Some(s.tempHistoryFile),
           Some(s.fontSize), Some(s.historyPath))
  }

  function Or<T>(o: Option<T>, default: T): T {
    match o
    case Some(v) => v
    case None => default
  }

  // ---------------------------------------------------------------------------
  // Slashes around the history folder
  // ---------------------------------------------------------------------------

  function StripLeadingSlashes(s: string): (r: string)
    decreases |s|
  {
    if |s| > 0 && s[0] == '/' then StripLeadingSlashes(s[1..]) else s
  }

  function StripTrailingSlashes(s: string): (r: string)
    decreases |s|
  {
    if |s| > 0 && s[|s| - 1] == '/' then StripTrailingSlashes(s[..|s| - 1]) else s
  }

  /** `.replace(/^\/+/, '').replace(/\/+$/, '')`. */
  function StripSlashes(s: string): string {
    StripTrailingSlashes(StripLeadingSlashes(s))
  }

  predicate AllSlashes(s: string) {
    forall k :: 0 <= k < |s| ==> s[k] == '/'
  }

  lemma {:induction false} LeadingShape(s: string)
    ensures var r := StripLeadingSlashes(s);
      |r| <= |s| && r == s[|s| - |r|..] && AllSlashes(s[..|s| - |r|]) && (|r| == 0 || r[0] != '/')
    decreases |s|
  {
    if |s| > 0 && s[0] == '/' {
      LeadingShape(s[1..]);
      var r := StripLeadingSlashes(s);
      assert s[1..][|s| - 1 - |r|..] == s[|s| - |r|..];
      assert s[..|s| - |r|] == [s[0]] + s[1..][..|s| - 1 - |r|];
    } else {
      assert s[|s| - |s|..] == s;
    }
  }

  lemma {:induction false} TrailingShape(s: string)
    ensures var r := StripTrailingSlashes(s);
      |r| <= |s| && r == s[..|r|] && AllSlashes(s[|r|..]) && (|r| == 0 || r[|r| - 1] != '/')
      && (|s| > 0 && s[0] != '/' ==> |r| > 0)
    decreases |s|
  {
    if |s| > 0 && s[|s| - 1] == '/' {
      TrailingShape(s[..|s| - 1]);
      var r := StripTrailingSlashes(s);
      assert s[..|s| - 1][..|r|] == s[..|r|];
      assert s[|r|..] == s[..|s| - 1][|r|..] + ['/'];
    } else {
      assert s[|s|..] == [];
    }
  }

  /** The folder is left with no slash at either end, and only slashes were cut. */
  lemma StripSlashesShape(s: string)
    ensures var r := StripSlashes(s);
      (|r| == 0 || (r[0] != '/' && r[|r| - 1] != '/'))
      && exists i, j :: 0 <= i <= j <= |s| && r == s[i..j] && AllSlashes(s[..i]) && AllSlashes(s[j..])
  {
    var t := StripLeadingSlashes(s);
    LeadingShape(s);
    TrailingShape(t);
    var r := StripSlashes(s);
    var i := |s| - |t|;
    assert r == s[i..i + |r|];
    assert s[i + |r|..] == t[|r|..];
    if |r| > 0 {
      assert r[0] == t[0];
    }
  }

  /** Cleaning an already clean folder changes nothing. */
  lemma StripSlashesIdempotent(s: string)
    ensures StripSlashes(StripSlashes(s)) == StripSlashes(s)
  {
    var r := StripSlashes(s);
    StripSlashesShape(s);
    if |r| > 0 {
      assert StripLeadingSlashes(r) == r;
      assert StripTrailingSlashes(r) == r;
    }
  }

  /** The running transcript's path the history-folder field writes. */
  function TempFileFor(folder: string): (path: string)
    ensures folder == "" ==> path == ""
    ensures folder != "" ==> path == folder + "/" + TempName
  {
    if folder != "" then folder + "/" + TempName else ""
  }

  // ---------------------------------------------------------------------------
  // loadSettings
  // ---------------------------------------------------------------------------

  /** `Array.isArray(x) ? x : [x].filter(v => v)`. */
  function AsList(stored: Option<StoredList>): (r: seq<string>)
    ensures stored.None? ==> r == []
    ensures stored.Some? && stored.value.List? ==> r == stored.value.items
    ensures stored.Some? && stored.value.Scalar? && stored.value.value != "" ==> r == [stored.value.value]
    ensures stored.Some? && stored.value.Scalar? && stored.value.value == "" ==> r == []
  {
    match stored
    case None => []
    case Some(List(items)) => items
    case Some(Scalar(v)) => if v != "" then [v] else []
  }

  /** `if (!current && list.length > 0) current = list[0]`. */
  function Selected(current: string, list: seq<string>): (r: string)
    ensures current != "" ==> r == current
    ensures r == "" ==> |list| == 0 || list[0] == ""
    ensures current == "" && |list| > 0 ==> r == list[0]
    ensures current == "" && |list| == 0 ==> r == ""
  {
    if current == "" && |list| > 0 then list[0] else current
  }

  /** `loadSettings`: the stored keys over the defaults, the history folder
      cleaned (and the running transcript moved into it), lists made arrays
      and empty selections filled with the first entry. */
  function LoadSettings(d: Stored): (s: Settings)
    ensures d == NothingStored ==> s == Defaults
    ensures s.apiKey == AsList(d.apiKey) && s.baseUrl == AsList(d.baseUrl) && s.model == AsList(d.model)
    ensures s.currentApiKey == Selected(Or(d.currentApiKey, ""), s.apiKey)
    ensures s.currentBaseUrl == Selected(Or(d.currentBaseUrl, "https://yunwu.ai"), s.baseUrl)
    ensures s.currentModel == Selected(Or(d.currentModel, "gpt-4"), s.model)
    ensures s.chatHistory == Or(d.chatHistory, [])
    ensures s.currentHistoryFile == Or(d.currentHistoryFile, "")
    ensures s.fontSize == Or(d.fontSize, 14)
    ensures s.historyPath == StripSlashes(Or(d.historyPath, ""))
    ensures s.historyPath != "" ==> s.tempHistoryFile == s.historyPath + "/" + TempName
    ensures Or(d.historyPath, "") != "" ==> s.tempHistoryFile == s.historyPath + "/" + TempName
    ensures Or(d.historyPath, "") == "" ==> s.tempHistoryFile == Or(d.tempHistoryFile, "")
  {
    var path := Or(d.historyPath, Defaults.historyPath);
    var temp := Or(d.tempHistoryFile, Defaults.tempHistoryFile);
    var keys := AsList(d.apiKey);
    var urls := AsList(d.baseUrl);
    var models := AsList(d.model);
    Settings(
      keys, urls, models,
      Selected(Or(d.currentApiKey, Defaults.currentApiKey), keys),
      Selected(Or(d.currentBaseUrl, Defaults.currentBaseUrl), urls),
      Selected(Or(d.currentModel, Defaults.currentModel), models),
      Or(d.chatHistory, Defaults.chatHistory),
      Or(d.currentHistoryFile, Defaults.currentHistoryFile),
      if path != "" then StripSlashes(path) + "/" + TempName else temp,
      Or(d.fontSize, Defaults.fontSize),
      if path != "" then StripSlashes(path) else path)
  }

  /** What every load guarantees: a clean history folder that the running
      transcript lives in, no empty entry in a list that was a single value,
      and a selection that is empty only when its list gives nothing to fill it. */
  lemma LoadedSettingsShape(d: Stored)
    ensures var s := LoadSettings(d);
      (|s.historyPath| == 0 || (s.historyPath[0] != '/' && s.historyPath[|s.historyPath| - 1] != '/'))
      && (s.historyPath != "" ==> s.tempHistoryFile == s.historyPath + "/" + TempName)
      && (s.currentApiKey == "" ==> |s.apiKey| == 0 || s.apiKey[0] == "")
      && (s.currentBaseUrl == "" ==> |s.baseUrl| == 0 || s.baseUrl[0] == "")
      && (s.currentModel == "" ==> |s.model| == 0 || s.model[0] == "")
      && (d.apiKey.Some? && d.apiKey.value.Scalar? ==> "" !in s.apiKey)
      && (d.baseUrl.Some? && d.baseUrl.value.Scalar? ==> "" !in s.baseUrl)
      && (d.model.Some? && d.model.value.Scalar? ==> "" !in s.model)
  {
    var path := Or(d.historyPath, Defaults.historyPath);
    StripSlashesShape(path);
  }

  /** Saving the settings and loading them again gives the same settings. */
  lemma SaveLoadStable(d: Stored)
    ensures LoadSettings(Saved(LoadSettings(d))) == LoadSettings(d)
  {
    var s := LoadSettings(d);
    var path := Or(d.historyPath, Defaults.historyPath);
    StripSlashesIdempotent(path);
    if s.historyPath == "" {
      assert LoadSettings(Saved(s)).tempHistoryFile == s.tempHistoryFile;
    }
  }

  // ---------------------------------------------------------------------------
  // The settings tab
  // ---------------------------------------------------------------------------

  /** The history-folder text field: slashes cut, and the running transcript
      moved into the folder (or dropped when the folder is cleared). */
  function WithHistoryFolder(s: Settings, value: string): (r: Settings)
    ensures r.historyPath == StripSlashes(value)
    ensures r.tempHistoryFile == TempFileFor(StripSlashes(value))
    ensures r == s.(historyPath := r.historyPath, tempHistoryFile := r.tempHistoryFile)
  {
    var path := StripSlashes(value);
    s.(historyPath := path, tempHistoryFile := TempFileFor(path))
  }

  /** A folder picked from the folder list is taken as it is. */
  function WithPickedFolder(s: Settings, folderPath: string): (r: Settings)
    ensures r.historyPath == folderPath
    ensures r.tempHistoryFile == folderPath + "/" + TempName
    ensures r == s.(historyPath := r.historyPath, tempHistoryFile := r.tempHistoryFile)
  {
    s.(historyPath := folderPath, tempHistoryFile := folderPath + "/" + TempName)
  }

  /** `result.split('\n').filter(line => line.trim())`, lines kept untrimmed. */
  function NonBlankLines(lines: seq<string>): (r: seq<string>)
    ensures forall k :: 0 <= k < |r| ==> Trim(r[k]) != ""
    ensures forall k :: 0 <= k < |r| ==> r[k] in lines
    decreases |lines|
  {
    if |lines| == 0 then []
    else
      var rest := NonBlankLines(lines[1..]);
      if Trim(lines[0]) != "" then [lines[0]] + rest else rest
  }

  /** Filtering distributes over concatenation: lines are kept or dropped
      one by one, in order. */
  lemma {:induction false} NonBlankLinesConcat(a: seq<string>, b: seq<string>)
    ensures NonBlankLines(a + b) == NonBlankLines(a) + NonBlankLines(b)
    decreases |a|
  {
    if |a| > 0 {
      assert (a + b)[1..] == a[1..] + b;
      NonBlankLinesConcat(a[1..], b);
    } else {
      assert a + b == b;
    }
  }

  /** A single line is kept exactly when it is not blank. */
  lemma NonBlankLine(l: string)
    ensures Trim(l) != "" ==> NonBlankLines([l]) == [l]
    ensures Trim(l) == "" ==> NonBlankLines([l]) == []
  {
    assert [l][1..] == [];
  }

  /** Every non-blank line survives the filter. */
  lemma {:induction false} NonBlankLinesComplete(lines: seq<string>)
    ensures forall l :: l in lines && Trim(l) != "" ==> l in NonBlankLines(lines)
    decreases |lines|
  {
    if |lines| > 0 {
      NonBlankLinesComplete(lines[1..]);
      forall l | l in lines && Trim(l) != "" ensures l in NonBlankLines(lines) {
        if l != lines[0] {
          assert l in lines[1..];
        }
      }
    }
  }

  function ListFromText(text: string): seq<string> {
    NonBlankLines(Split(text))
  }

  lemma {:induction false} NonBlankLinesKeep(lines: seq<string>)
    requires forall k :: 0 <= k < |lines| ==> Trim(lines[k]) != ""
    ensures NonBlankLines(lines) == lines
    decreases |lines|
  {
    if |lines| > 0 {
      NonBlankLinesKeep(lines[1..]);
    }
  }

  /** Opening the list editor and saving it unchanged keeps the list, as long
      as no entry is blank or holds a newline. */
  lemma ListEditRoundTrip(list: seq<string>)
    requires forall k :: 0 <= k < |list| ==> Trim(list[k]) != "" && '\n' !in list[k]
    ensures ListFromText(Join(list)) == list
  {
    if |list| == 0 {
      TrimOfEmpty();
    } else {
      SplitJoin(list);
      NonBlankLinesKeep(list);
    }
  }

  /** `list.length > 0 ? list[0] : ''`. */
  function FirstOrEmpty(list: seq<string>): (r: string)
    ensures |list| > 0 ==> r == list[0]
    ensures |list| == 0 ==> r == ""
  {
    if |list| > 0 then list[0] else ""
  }

  datatype ListKind = Keys | Urls | Models

  /** Saving one of the three list editors: the list is replaced by the
      non-blank lines of the text and its first entry becomes the selection. */
  function EditList(s: Settings, kind: ListKind, text: string): (r: Settings)
    ensures kind == Keys ==> r == s.(apiKey := ListFromText(text), currentApiKey := FirstOrEmpty(ListFromText(text)))
    ensures kind == Urls ==> r == s.(baseUrl := ListFromText(text), currentBaseUrl := FirstOrEmpty(ListFromText(text)))
    ensures kind == Models ==> r == s.(model := ListFromText(text), currentModel := FirstOrEmpty(ListFromText(text)))
  {
    var list := ListFromText(text);
    match kind
    case Keys => s.(apiKey := list, currentApiKey := FirstOrEmpty(list))
    case Urls => s.(baseUrl := list, currentBaseUrl := FirstOrEmpty(list))
    case Models => s.(model := list, currentModel := FirstOrEmpty(list))
  }

  /** After an edit the selection is empty exactly when the list is. */
  lemma EditedSelection(s: Settings, kind: ListKind, text: string)
    ensures var r := EditList(s, kind, text);
      match kind
      case Keys => (r.currentApiKey == "" <==> |r.apiKey| == 0) && (|r.apiKey| > 0 ==> r.currentApiKey == r.apiKey[0])
      case Urls => (r.currentBaseUrl == "" <==> |r.baseUrl| == 0) && (|r.baseUrl| > 0 ==> r.currentBaseUrl == r.baseUrl[0])
      case Models => (r.currentModel == "" <==> |r.model| == 0) && (|r.model| > 0 ==> r.currentModel == r.model[0])
  {
    var list := ListFromText(text);
    if |list| > 0 {
      assert Trim(list[0]) != "";
      TrimOfEmpty();
    }
  }

  // ---------------------------------------------------------------------------
  // Labels for API keys
  // ---------------------------------------------------------------------------

  /** `s.substring(0, n)`. */
  function Prefix(s: string, n: nat): (r: string)
    ensures |r| <= n && r <= s
  {
    if |s| <= n then s else s[..n]
  }

  /** The settings-tab dropdown: the option's value and its label. */
  function SettingsOption(line: string): (string, string) {
    (Trim(line),
     match MatchKey(line)
     case Some(m) =>
       if Trim(m.note) != "" then Trim(m.note) + " (" + Prefix(m.key, 10) + "...)"
       else Prefix(m.key, 10) + "..."
     case None => Trim(line))
  }

  /** The key selector built when the chat view opens: the note alone, or
      the first ten characters of the whole entry. */
  function SelectorLabel(entry: string): string {
    match MatchKey(entry)
    case Some(m) => if Trim(m.note) != "" then Trim(m.note) else Prefix(entry, 10) + "..."
    case None => Prefix(entry, 10) + "..."
  }

  /** The key selector rebuilt by `updateDropdowns`. */
  function RefreshedLabel(entry: string): string {
    match MatchKey(entry)
    case Some(m) => (if Trim(m.note) != "" then Trim(m.note) else Prefix(m.key, 10)) + "..."
    case None => entry
  }

  lemma BareKeyMatch(key: string)
    requires KeyAt(key, 0)
    requires forall k :: 0 <= k < |key| ==> !IsSpace(key[k])
    ensures MatchKey(key) == Some(KeyMatch("", key))
  {
    assert First(key, 0, KeyAt) == Some(0);
    RunEndOfNoSpace(key, 0);
    assert LineStart(key, 0) == 0;
    assert key[0..|key|] == key && key[0..0] == "";
  }

  /** A bare key is labelled by its first ten characters in all three places,
      and never shown in full when it is longer than that. */
  lemma BareKeyLabels(key: string)
    requires KeyAt(key, 0)
    requires forall k :: 0 <= k < |key| ==> !IsSpace(key[k])
    ensures SettingsOption(key).1 == Prefix(key, 10) + "..."
    ensures SelectorLabel(key) == Prefix(key, 10) + "..."
    ensures RefreshedLabel(key) == Prefix(key, 10) + "..."
  {
    BareKeyMatch(key);
    TrimOfEmpty();
    BareKeyLabel(key, MatchKey(key));
  }

  lemma BareKeyLabel(key: string, m: Option<KeyMatch>)
    requires m == MatchKey(key) == Some(KeyMatch("", key))
    requires Trim("") == ""
    ensures SettingsOption(key).1 == Prefix(key, 10) + "..."
    ensures SelectorLabel(key) == Prefix(key, 10) + "..."
    ensures RefreshedLabel(key) == Prefix(key, 10) + "..."
  {
  }

  /** A key written after a note is labelled by the note: with the key's first
      ten characters in the settings tab, alone in the chat view. */
  lemma NotedKeyLabels(note: string, key: string)
    requires !IsBlank(note)
    requires forall q :: 0 <= q < |note| ==> !KeyAt(note, q)
    requires forall k :: 0 <= k < |note| ==> !IsLineTerminator(note[k])
    requires KeyAt(key, 0)
    requires forall k :: 0 <= k < |key| ==> !IsSpace(key[k])
    ensures SettingsOption(note + " " + key).1 == Trim(note) + " (" + Prefix(key, 10) + "...)"
    ensures SelectorLabel(note + " " + key) == Trim(note)
    ensures RefreshedLabel(note + " " + key) == Trim(note) + "..."
  {
    NotedKey(note, key);
    TrimTrailingSpace(note);
    TrimEmptyIffBlank(note);
  }

  // ---------------------------------------------------------------------------
  // Font size
  // ---------------------------------------------------------------------------

  /** The size after one Ctrl+wheel step: one smaller when scrolling down,
      one larger otherwise, from 14 when no size is set, kept within 8..32. */
  function FontStep(fontSize: int, deltaY: int): (r: int)
    ensures 8 <= r <= 32
  {
    var base := if fontSize != 0 then fontSize else 14;
    var delta := if deltaY > 0 then -1 else 1;
    if base + delta < 8 then 8 else if base + delta > 32 then 32 else base + delta
  }

  /** Within the range a step moves the size by one in the wheel's direction,
      stopping at the bounds. */
  lemma FontStepDirection(fontSize: int, deltaY: int)
    requires 8 <= fontSize <= 32
    ensures deltaY > 0 ==> FontStep(fontSize, deltaY) == if fontSize > 8 then fontSize - 1 else 8
    ensures deltaY <= 0 ==> FontStep(fontSize, deltaY) == if fontSize < 32 then fontSize + 1 else 32
  {
  }

  /** One step down and one step up restore the size, away from the lower bound. */
  lemma FontStepUndo(fontSize: int, up: int, down: int)
    requires 8 < fontSize <= 32 && down > 0 && up <= 0
    ensures FontStep(FontStep(fontSize, down), up) == fontSize
  {
  }
}
