/** The state the chat keeps while the plugin runs: the plugin object with
    its settings and the vault it writes into, and the chat view with the
    messages on screen and the images waiting to be sent. */
module Session {
  import opened Text
  import opened Transcript
  import opened Request
  import opened PluginSettings
  import opened History
  import Stream

  // ---------------------------------------------------------------------------
  // Archiving a conversation (`saveChatHistoryToFile`)
  // ---------------------------------------------------------------------------

  /** How a call of `saveChatHistoryToFile` ends: the archive was written at
      `path`; it returned early (no history folder set, or the folder could not
      be created); or `vault.create` rejected and the error reached the caller. */
  datatype ArchiveOutcome = Archived(path: string) | Skipped | Threw

  /** The outcome together with the vault and the settings it leaves behind. */
  datatype ArchiveStep = ArchiveStep(outcome: ArchiveOutcome, vault: Vault, settings: Settings)

  /** What `saveChatHistoryToFile(history)` does at the moment `now`. */
  function ArchiveStepOf(s: Settings, v: Vault, history: seq<Turn>, now: Instant, mtime: int): ArchiveStep {
    if s.historyPath == "" then ArchiveStep(Skipped, v, s)
    else
      var folder := if s.historyPath in v.folders then Some(v) else CreateFolder(v, s.historyPath);
      match folder
      case None => ArchiveStep(Skipped, v, s)
      case Some(w) =>
        var path := ArchivePath(s.historyPath, now);
        match Create(w, path, Format(history), mtime)
        case None => ArchiveStep(Threw, w, s)
        case Some(w2) => ArchiveStep(Archived(path), w2, s.(currentHistoryFile := path))
  }

  /** Archiving keeps the vault valid; without a history folder it does nothing;
      when it throws the settings are untouched; when it succeeds the
      transcript of the conversation is appended as a new file named after the
      moment, inside the history folder, and becomes the current history file. */
  lemma ArchiveEffect(s: Settings, v: Vault, history: seq<Turn>, now: Instant, mtime: int)
    requires Valid(v)
    ensures var step := ArchiveStepOf(s, v, history, now, mtime);
      Valid(step.vault)
      && (s.historyPath == "" ==> step == ArchiveStep(Skipped, v, s))
      && (step.outcome.Threw? ==> step.settings == s && s.historyPath in step.vault.folders)
      && (step.outcome.Skipped? ==> step.vault == v && step.settings == s)
      && (step.outcome.Archived? ==>
            step.outcome.path == ArchivePath(s.historyPath, now)
            && step.settings == s.(currentHistoryFile := step.outcome.path)
            && step.vault.files == v.files + [File(step.outcome.path, Format(history), mtime)]
            && step.vault.folders == v.folders + {s.historyPath})
  {
    if s.historyPath != "" {
      var folder := if s.historyPath in v.folders then Some(v) else CreateFolder(v, s.historyPath);
      if folder.Some? {
        var w := folder.value;
        if s.historyPath !in v.folders {
          CreateFolderPreservesValid(v, s.historyPath);
        }
        assert w.folders == v.folders + {s.historyPath};
        var path := ArchivePath(s.historyPath, now);
        if Create(w, path, Format(history), mtime).Some? {
          CreatePreservesValid(w, path, Format(history), mtime);
        }
      }
    }
  }

  /** The archive is written whenever the history folder is set, is not a
      file, and no file or folder already has the archive's name. */
  lemma ArchiveSucceeds(s: Settings, v: Vault, history: seq<Turn>, now: Instant, mtime: int)
    requires Valid(v) && s.historyPath != "" && FileIndex(v.files, s.historyPath).None?
    requires !Taken(v, ArchivePath(s.historyPath, now))
    ensures ArchiveStepOf(s, v, history, now, mtime).outcome == Archived(ArchivePath(s.historyPath, now))
  {
    var path := ArchivePath(s.historyPath, now);
    assert |path| > |s.historyPath|;
    var w := if s.historyPath in v.folders then v else Vault(v.files, v.folders + {s.historyPath});
    assert !Taken(w, path);
  }

  /** A written archive shows up in the history listing the restore commands
      walk, with the transcript as its content. */
  lemma ArchiveListed(s: Settings, v: Vault, history: seq<Turn>, now: Instant, mtime: int)
    requires Valid(v) && ValidInstant(now) && 0 <= now.year <= 9999
    requires ArchiveStepOf(s, v, history, now, mtime).outcome.Archived?
    ensures var step := ArchiveStepOf(s, v, history, now, mtime);
      File(step.outcome.path, Format(history), mtime) in HistoryFiles(step.vault, s.historyPath)
  {
    ArchiveEffect(s, v, history, now, mtime);
    var step := ArchiveStepOf(s, v, history, now, mtime);
    assert step.vault.files[|v.files|] == File(step.outcome.path, Format(history), mtime);
    ArchiveFileListed(step.vault, s.historyPath, now, |v.files|);
  }

  /** A second archive in the same millisecond finds its name taken and throws,
      leaving the settings as the first archive set them. */
  lemma ArchiveTwiceSameInstant(s: Settings, v: Vault, h1: seq<Turn>, h2: seq<Turn>, now: Instant, m1: int, m2: int)
    requires Valid(v)
    requires ArchiveStepOf(s, v, h1, now, m1).outcome.Archived?
    ensures var first := ArchiveStepOf(s, v, h1, now, m1);
      ArchiveStepOf(first.settings, first.vault, h2, now, m2)
        == ArchiveStep(Threw, first.vault, first.settings)
  {
    ArchiveEffect(s, v, h1, now, m1);
    var first := ArchiveStepOf(s, v, h1, now, m1);
    var path := ArchivePath(s.historyPath, now);
    assert first.vault.files[|v.files|].path == path;
    assert FileIndex(first.vault.files, path).Some?;
  }

  // ---------------------------------------------------------------------------
  // The restore commands
  // ---------------------------------------------------------------------------

  /** The file Alt+Up (`older`) or Alt+Down loads, if any: nothing when no
      archive is listed or the current one is already at that end. */
  function RestoreTarget(v: Vault, s: Settings, older: bool): Option<File> {
    var files := HistoryFiles(v, s.historyPath);
    if |files| == 0 then None
    else
      var current := IndexOfPath(files, s.currentHistoryFile);
      var next := if older then OlderIndex(current, |files|) else NewerIndex(current, |files|);
      if next != current then Some(files[next]) else None
  }

  /** What is loaded is one of the archives listed: a Markdown file of the
      history folder. */
  lemma RestoreListed(v: Vault, s: Settings, older: bool)
    requires RestoreTarget(v, s, older).Some?
    ensures var f := RestoreTarget(v, s, older).value;
      f in v.files && InHistory(f, s.historyPath)
  {
    var files := HistoryFiles(v, s.historyPath);
    var current := IndexOfPath(files, s.currentHistoryFile);
    RestoreIndexRange(current, |files|);
    HistoryFilesListing(v, s.historyPath);
  }

  /** With no archive open (say, after a new conversation), both commands load
      the newest archive. */
  lemma RestoreStartsAtNewest(v: Vault, s: Settings, older: bool)
    requires |HistoryFiles(v, s.historyPath)| > 0
    requires forall f :: f in HistoryFiles(v, s.historyPath) ==> f.path != s.currentHistoryFile
    ensures RestoreTarget(v, s, older) == Some(HistoryFiles(v, s.historyPath)[0])
  {
    var files := HistoryFiles(v, s.historyPath);
    forall j | 0 <= j < |files| ensures files[j].path != s.currentHistoryFile {
      assert files[j] in files;
    }
  }

  /** Alt+Up from an archive that is not the oldest loads the next older one,
      and Alt+Down from there comes back to where it started. */
  lemma RestoreOlderThenNewer(v: Vault, s: Settings, i: nat)
    requires Valid(v)
    requires i + 1 < |HistoryFiles(v, s.historyPath)|
    requires s.currentHistoryFile == HistoryFiles(v, s.historyPath)[i].path
    ensures var files := HistoryFiles(v, s.historyPath);
      RestoreTarget(v, s, true) == Some(files[i + 1])
      && RestoreTarget(v, Loaded(s, files[i + 1]), false) == Some(files[i])
  {
    var files := HistoryFiles(v, s.historyPath);
    ListingDistinct(v, s.historyPath);
    LoadedFileFound(files, i);
    LoadedFileFound(files, i + 1);
    RestoreIndexRange(i, |files|);
    RestoreIndexRange(i + 1, |files|);
  }

  /** The settings after `loadHistoryFile(file)`. */
  function Loaded(s: Settings, file: File): Settings {
    s.(currentHistoryFile := file.path, chatHistory := Parse(file.content))
  }

  // ---------------------------------------------------------------------------
  // Sending a message
  // ---------------------------------------------------------------------------

  /** What `fetch` gives back: a rejected promise or a non-ok status, or a
      stream of decoded chunks. */
  datatype Response = Refused | Streamed(chunks: seq<string>)

  /** How `handleSendMessage` ends: nothing to send; the `TypeError` of a
      missing key; an error after the request was made; or the reply. */
  datatype SendOutcome =
    | Ignored
    | NoKey
    | Failed(request: ChatRequest)
    | Answered(request: ChatRequest, reply: string)

  /** The text the placeholder ends up holding. */
  function ReplyText(o: SendOutcome): string {
    if o.Answered? then o.reply else ""
  }

  /** What `callAI(userMessage)` makes of the messages on screen. */
  function SendOutcomeOf(s: Settings, messages: seq<Turn>, userMessage: string, pendingImages: seq<string>,
                         response: Response, decode: string -> Stream.Delta): SendOutcome
  {
    match KeyEntry(s.currentApiKey, s.apiKey)
    case None => NoKey
    case Some(entry) =>
      var request := ChatRequest(Endpoint(s.currentBaseUrl), ExtractApiKey(entry), s.currentModel,
                                 Payloads(messages) + [CurrentMessage(userMessage, pendingImages)]);
      match response
      case Refused => Failed(request)
      case Streamed(chunks) => Answered(request, Stream.Reply(chunks, decode))
  }

  lemma PayloadsConcat(a: seq<Turn>, b: seq<Turn>)
    ensures Payloads(a + b) == Payloads(a) + Payloads(b)
  {
  }

  /** When `handleSendMessage` reaches `fetch`, the request ends with the new
      message as parts (text first, then exactly the pending images, in order),
      the empty placeholder reply, and the same text once more as a plain
      message; it fails only when no key is selected and the key list is empty. */
  lemma SentTwice(s: Settings, history: seq<Turn>, content: string, images: seq<string>,
                  now: Stamp, replyTime: Stamp, response: Response, decode: string -> Stream.Delta)
    ensures var o := SendOutcomeOf(s, history + [Turn(User, content, now, Some(images)), Turn(Assistant, "", replyTime, None)],
                                   content, [], response, decode);
      (o.NoKey? <==> s.currentApiKey == "" && |s.apiKey| == 0)
      && (o.Failed? || o.Answered? ==>
            var parts := Parts(content, images);
            o.request.messages
              == Payloads(history) + [ApiMessage(User, Multi(parts)), ApiMessage(Assistant, Plain("")),
                                      ApiMessage(User, Plain(content))]
            && parts[0] == TextPart(content) && ImagesOf(parts) == images)
  {
    var user, placeholder := Turn(User, content, now, Some(images)), Turn(Assistant, "", replyTime, None);
    var messages := history + [user, placeholder];
    PayloadsConcat(history, [user, placeholder]);
    assert Payloads([user, placeholder]) == [Payload(user), Payload(placeholder)];
    assert Payload(user) == ApiMessage(User, Multi(Parts(content, images)));
    assert Payload(placeholder) == ApiMessage(Assistant, Plain(""));
    assert CurrentMessage(content, []) == ApiMessage(User, Plain(content));
    AppendAssoc(Payloads(history), [Payload(user), Payload(placeholder)], [CurrentMessage(content, [])]);
    PartsRoundTrip(content, images);
  }

  // ---------------------------------------------------------------------------
  // Re-rendering and pending images
  // ---------------------------------------------------------------------------

  /** The message `addMessage(msg.role, msg.content, msg.time, false)` pushes:
      the `images` parameter defaults to an empty list. */
  function Copy(t: Turn): Turn {
    Turn(t.role, t.content, t.time, Some([]))
  }

  function Copies(ts: seq<Turn>): (r: seq<Turn>)
    ensures |r| == |ts|
  {
    seq(|ts|, i requires 0 <= i < |ts| => Copy(ts[i]))
  }

  /** After a re-render every message is on screen twice, and the next request
      sends the second copy of a user message as a one-part list even when the
      first copy, read back from a transcript, goes as plain text. */
  lemma RenderedTwice(history: seq<Turn>)
    ensures var shown := history + Copies(history);
      |shown| == 2 * |history|
      && forall i :: 0 <= i < |history| ==>
           shown[|history| + i].role == shown[i].role && shown[|history| + i].content == shown[i].content
           && shown[|history| + i].time == shown[i].time
           && Payload(shown[|history| + i])
                == (if shown[i].role == User then ApiMessage(User, Multi([TextPart(shown[i].content)]))
                    else ApiMessage(Assistant, Plain(shown[i].content)))
  {
    var shown := history + Copies(history);
    forall i | 0 <= i < |history|
      ensures Payload(shown[|history| + i])
                == (if shown[i].role == User then ApiMessage(User, Multi([TextPart(shown[i].content)]))
                    else ApiMessage(Assistant, Plain(shown[i].content)))
    {
      assert shown[|history| + i] == Copy(history[i]);
      assert Parts(history[i].content, []) == [TextPart(history[i].content)];
    }
  }

  /** `pendingImages.indexOf(image)`. */
  function IndexOf(images: seq<string>, image: string): (r: int)
    ensures -1 <= r < |images|
    ensures r >= 0 ==> images[r] == image && forall j :: 0 <= j < r ==> images[j] != image
    ensures r == -1 <==> image !in images
  {
    if |images| == 0 then -1
    else if images[0] == image then 0
    else
      var r := IndexOf(images[1..], image);
      if r == -1 then -1 else r + 1
  }

  /** The list after a preview's remove button: the first copy of the image is
      spliced out when there is one. */
  function RemoveFirst(images: seq<string>, image: string): seq<string> {
    var index := IndexOf(images, image);
    if index > -1 then images[..index] + images[index + 1..] else images
  }

  /** Removing takes out exactly one copy of an image that is pending and
      changes nothing otherwise. */
  lemma RemoveFirstCount(images: seq<string>, image: string)
    ensures multiset(RemoveFirst(images, image)) == multiset(images) - multiset{image}
    ensures image !in images ==> RemoveFirst(images, image) == images
  {
    var index := IndexOf(images, image);
    if index > -1 {
      var before, after := images[..index], images[index + 1..];
      assert images == before + [image] + after;
      SpliceCount(before, image, after);
    } else {
      assert multiset(images)[image] == 0;
    }
  }

  lemma SpliceCount(before: seq<string>, image: string, after: seq<string>)
    ensures multiset(before + after) == multiset(before + [image] + after) - multiset{image}
  {
    assert multiset(before + [image] + after) == multiset(before) + multiset{image} + multiset(after);
  }

  /** Removing an image just added, that was not pending before, restores the
      list. */
  lemma AddThenRemove(images: seq<string>, image: string)
    requires image !in images
    ensures RemoveFirst(images + [image], image) == images
  {
    assert IndexOf(images + [image], image) == |images| by {
      assert (images + [image])[|images|] == image;
      assert forall j :: 0 <= j < |images| ==> (images + [image])[j] != image;
    }
  }

  // ---------------------------------------------------------------------------
  // The plugin
  // ---------------------------------------------------------------------------

  /** The plugin object: its settings and the vault it writes into. */
  class Plugin {
    var settings: Settings
    var vault: Vault

    predicate Valid()
      reads this
    {
      History.Valid(vault)
    }

    /** `onload`'s `loadSettings` over what was stored. */
    constructor(data: Stored, vault0: Vault)
      requires History.Valid(vault0)
      ensures Valid()
      ensures settings == LoadSettings(data) && vault == vault0
    {
      settings := LoadSettings(data);
      vault := vault0;
    }

    /** `saveChatHistoryToFile(history)` at the moment `now`. */
    method SaveChatHistoryToFile(history: seq<Turn>, now: Instant, mtime: int) returns (outcome: ArchiveOutcome)
      requires Valid()
      modifies this
      ensures Valid()
      ensures ArchiveStep(outcome, vault, settings) == ArchiveStepOf(old(settings), old(vault), history, now, mtime)
    {
      ArchiveEffect(settings, vault, history, now, mtime);
      if settings.historyPath == "" {
        return Skipped;
      }
      if settings.historyPath !in vault.folders {
        var created := CreateFolder(vault, settings.historyPath);
        if created.None? {
          return Skipped;
        }
        vault := created.value;
      }
      var filePath := settings.historyPath + "/" + ArchiveStamp(now) + ".md";
      var content := ArchiveContent(history);
      var written := Create(vault, filePath, content, mtime);
      if written.None? {
        return Threw;
      }
      vault := written.value;
      settings := settings.(currentHistoryFile := filePath);
      outcome := Archived(filePath);
    }

    /** `loadHistoryFile(file)` with one open chat view. */
    method LoadHistoryFile(view: ChatView, file: File)
      requires view.plugin == this
      modifies this, view
      ensures settings == Loaded(old(settings), file) && vault == old(vault)
      ensures view.messages == Parse(file.content) + Copies(Parse(file.content))
      ensures view.pendingImages == old(view.pendingImages)
    {
      var history := ParseMarkdownToChatHistory(file.content);
      settings := settings.(currentHistoryFile := file.path, chatHistory := history);
      view.messages := settings.chatHistory;
      view.RenderMessages();
    }

    /** The Alt+Up (`older`) and Alt+Down commands. */
    method Restore(view: ChatView, older: bool)
      requires view.plugin == this
      modifies this, view
      ensures vault == old(vault) && view.pendingImages == old(view.pendingImages)
      ensures RestoreTarget(old(vault), old(settings), older).None? ==>
        settings == old(settings) && view.messages == old(view.messages)
      ensures RestoreTarget(old(vault), old(settings), older).Some? ==>
        var file := RestoreTarget(old(vault), old(settings), older).value;
        settings == Loaded(old(settings), file)
        && view.messages == Parse(file.content) + Copies(Parse(file.content))
    {
      var files := HistoryFiles(vault, settings.historyPath);
      if |files| == 0 {
        return;
      }
      var currentIndex := IndexOfPath(files, settings.currentHistoryFile);
      var nextIndex := if older then OlderIndex(currentIndex, |files|) else NewerIndex(currentIndex, |files|);
      RestoreIndexRange(currentIndex, |files|);
      if nextIndex != currentIndex {
        LoadHistoryFile(view, files[nextIndex]);
      }
    }

    /** The history-folder text field: the setting is updated and the folder
        created when nothing is at that path; a failed creation is swallowed. */
    method SetHistoryPath(value: string)
      requires Valid()
      modifies this
      ensures Valid()
      ensures settings == WithHistoryFolder(old(settings), value)
      ensures var path := StripSlashes(value);
        vault == (if path != "" && path !in old(vault.folders) && CreateFolder(old(vault), path).Some?
                  then CreateFolder(old(vault), path).value else old(vault))
    {
      settings := WithHistoryFolder(settings, value);
      var path := settings.historyPath;
      if path != "" && path !in vault.folders {
        var created := CreateFolder(vault, path);
        if created.Some? {
          CreateFolderPreservesValid(vault, path);
          vault := created.value;
        }
      }
    }

    /** A folder picked in the folder list. */
    method PickHistoryFolder(folderPath: string)
      modifies this
      ensures settings == WithPickedFolder(old(settings), folderPath) && vault == old(vault)
    {
      settings := WithPickedFolder(settings, folderPath);
    }
  }

  // ---------------------------------------------------------------------------
  // The chat view
  // ---------------------------------------------------------------------------

  /** The chat view: the messages on screen and the images waiting to be sent. */
  class ChatView {
    const plugin: Plugin
    var messages: seq<Turn>
    var pendingImages: seq<string>

    constructor(plugin: Plugin)
      ensures this.plugin == plugin && messages == [] && pendingImages == []
    {
      this.plugin := plugin;
      messages := [];
      pendingImages := [];
    }

    /** `addMessage(role, content, time, save, images)`. */
    method AddMessage(role: Role, content: string, time: Stamp, save: bool, images: seq<string>)
      modifies this, plugin
      ensures messages == old(messages) + [Turn(role, content, time, Some(images))]
      ensures pendingImages == old(pendingImages) && plugin.vault == old(plugin.vault)
      ensures plugin.settings
        == if save then old(plugin.settings).(chatHistory := old(plugin.settings.chatHistory) + [Turn(role, content, time, Some(images))])
           else old(plugin.settings)
    {
      var messageData := Turn(role, content, time, Some(images));
      messages := messages + [messageData];
      if save {
        plugin.settings := plugin.settings.(chatHistory := plugin.settings.chatHistory + [messageData]);
      }
    }

    /** `createAssistantMessageElement`: an empty reply with no `images` field. */
    method CreateAssistantMessage(time: Stamp)
      modifies this
      ensures messages == old(messages) + [Turn(Assistant, "", time, None)]
      ensures pendingImages == old(pendingImages)
    {
      messages := messages + [Turn(Assistant, "", time, None)];
    }

    /** `saveTempChatHistory`: the running transcript is overwritten with the
        messages on screen, or created; errors are swallowed. */
    method SaveTemp(mtime: int)
      requires plugin.Valid()
      modifies plugin
      ensures plugin.Valid()
      ensures plugin.vault == SaveLive(old(plugin.vault), plugin.settings.tempHistoryFile, Format(messages), mtime)
      ensures plugin.settings == old(plugin.settings)
    {
      var content := ArchiveContent(messages);
      SaveLiveStores(plugin.vault, plugin.settings.tempHistoryFile, content, mtime);
      plugin.vault := SaveLive(plugin.vault, plugin.settings.tempHistoryFile, content, mtime);
    }

    /** The part of `callAI` after the request is made: on a streamed reply
        the last message, when it is the assistant's, receives the reply. */
    method CallAI(userMessage: string, response: Response, decode: string -> Stream.Delta)
      returns (outcome: SendOutcome)
      modifies this
      ensures outcome == SendOutcomeOf(plugin.settings, old(messages), userMessage, old(pendingImages), response, decode)
      ensures pendingImages == old(pendingImages)
      ensures outcome.Answered? && |old(messages)| > 0 && old(messages)[|old(messages)| - 1].role == Assistant ==>
        messages == old(messages)[..|old(messages)| - 1]
                    + [old(messages)[|old(messages)| - 1].(content := outcome.reply)]
      ensures !(outcome.Answered? && |old(messages)| > 0 && old(messages)[|old(messages)| - 1].role == Assistant) ==>
        messages == old(messages)
    {
      var s := plugin.settings;
      var request := PrepareRequest(s.currentApiKey, s.apiKey, s.currentBaseUrl, s.currentModel,
                                    messages, userMessage, pendingImages);
      if request.None? {
        return NoKey;
      }
      match response
      case Refused =>
        outcome := Failed(request.value);
      case Streamed(chunks) =>
        var accumulatedContent, rendered := Stream.ReadStream(chunks, decode);
        if |messages| > 0 && messages[|messages| - 1].role == Assistant {
          messages := messages[..|messages| - 1] + [messages[|messages| - 1].(content := accumulatedContent)];
        }
        outcome := Answered(request.value, accumulatedContent);
    }

    /** `handleSendMessage` with the text area holding `input`: `now` and
        `replyTime` are the two `new Date()`s, `mtime1` and `mtime2` the times
        of the two writes of the running transcript. */
    method HandleSendMessage(input: string, now: Stamp, replyTime: Stamp, response: Response,
                             decode: string -> Stream.Delta, mtime1: int, mtime2: int)
      returns (outcome: SendOutcome)
      requires plugin.Valid()
      modifies this, plugin
      ensures plugin.Valid()
      ensures Trim(input) == "" && |old(pendingImages)| == 0 ==>
        outcome == Ignored && messages == old(messages) && pendingImages == old(pendingImages)
        && plugin.settings == old(plugin.settings) && plugin.vault == old(plugin.vault)
      ensures !(Trim(input) == "" && |old(pendingImages)| == 0) ==>
        var user := Turn(User, Trim(input), now, Some(old(pendingImages)));
        var placeholder := Turn(Assistant, "", replyTime, None);
        var temp := old(plugin.settings.tempHistoryFile);
        var saved := SaveLive(old(plugin.vault), temp, Format(old(messages) + [user]), mtime1);
        outcome == SendOutcomeOf(old(plugin.settings), old(messages) + [user, placeholder], Trim(input), [], response, decode)
        && messages == old(messages) + [user, placeholder.(content := ReplyText(outcome))]
        && pendingImages == []
        && plugin.settings == old(plugin.settings).(chatHistory := old(plugin.settings.chatHistory) + [user])
        && plugin.vault == (if outcome.Answered? then SaveLive(saved, temp, Format(messages), mtime2) else saved)
    {
      var content := Trim(input);
      if content == "" && |pendingImages| == 0 {
        return Ignored;
      }
      var images := pendingImages;
      ghost var user := Turn(User, content, now, Some(images));
      ghost var placeholder := Turn(Assistant, "", replyTime, None);
      AddMessage(User, content, now, true, images);
      pendingImages := [];
      SaveTemp(mtime1);
      ghost var saved := plugin.vault;
      CreateAssistantMessage(replyTime);
      ghost var shown := messages;
      assert shown == old(messages) + [user, placeholder];
      outcome := CallAI(content, response, decode);
      assert messages == old(messages) + [user, placeholder.(content := ReplyText(outcome))] by {
        assert shown[..|shown| - 1] == old(messages) + [user];
      }
      if outcome.Answered? {
        SaveTemp(mtime2);
      }
    }

    /** The clear button: nothing to clear is only a notice; otherwise the
        screen and the saved history are emptied and so is the running
        transcript. */
    method Clear(mtime: int)
      requires plugin.Valid()
      modifies this, plugin
      ensures plugin.Valid()
      ensures pendingImages == old(pendingImages)
      ensures |old(messages)| == 0 ==>
        messages == old(messages) && plugin.settings == old(plugin.settings) && plugin.vault == old(plugin.vault)
      ensures |old(messages)| > 0 ==>
        messages == [] && plugin.settings == old(plugin.settings).(chatHistory := [])
        && plugin.vault == SaveLive(old(plugin.vault), old(plugin.settings.tempHistoryFile), "", mtime)
    {
      if |messages| == 0 {
        return;
      }
      messages := [];
      plugin.settings := plugin.settings.(chatHistory := []);
      SaveTemp(mtime);
    }

    /** `handleNewConversation`: a non-empty conversation is archived first;
        if that throws nothing else happens, otherwise the screen, the saved
        history and the current history file are cleared. The running
        transcript is left as it was. */
    method NewConversation(now: Instant, mtime: int) returns (outcome: Option<ArchiveOutcome>)
      requires plugin.Valid()
      modifies this, plugin
      ensures plugin.Valid()
      ensures pendingImages == old(pendingImages)
      ensures |old(messages)| == 0 ==>
        outcome == None && messages == []
        && plugin.settings == old(plugin.settings).(chatHistory := [], currentHistoryFile := "")
        && plugin.vault == old(plugin.vault)
      ensures |old(messages)| > 0 ==>
        var step := ArchiveStepOf(old(plugin.settings), old(plugin.vault), old(messages), now, mtime);
        outcome == Some(step.outcome) && plugin.vault == step.vault
        && (step.outcome.Threw? ==> messages == old(messages) && plugin.settings == old(plugin.settings))
        && (!step.outcome.Threw? ==>
              messages == [] && plugin.settings == step.settings.(chatHistory := [], currentHistoryFile := ""))
    {
      outcome := None;
      if |messages| > 0 {
        var archived := plugin.SaveChatHistoryToFile(messages, now, mtime);
        outcome := Some(archived);
        if archived.Threw? {
          return;
        }
      }
      messages := [];
      plugin.settings := plugin.settings.(chatHistory := [], currentHistoryFile := "");
    }

    /** `renderMessages`: the saved history is put on screen and then, by the
        `forEach` over that copy, every message is added once more. */
    method RenderMessages()
      modifies this, plugin
      ensures messages == plugin.settings.chatHistory + Copies(plugin.settings.chatHistory)
      ensures pendingImages == old(pendingImages)
      ensures plugin.settings == old(plugin.settings) && plugin.vault == old(plugin.vault)
    {
      messages := plugin.settings.chatHistory;
      var original := messages;
      var i := 0;
      while i < |original|
        invariant 0 <= i <= |original|
        invariant messages == original + Copies(original[..i])
        invariant pendingImages == old(pendingImages)
        invariant plugin.settings == old(plugin.settings) && plugin.vault == old(plugin.vault)
      {
        var msg := original[i];
        AddMessage(msg.role, msg.content, msg.time, false, []);
        assert Copies(original[..i + 1]) == Copies(original[..i]) + [Copy(msg)];
        i := i + 1;
      }
      assert original[..|original|] == original;
    }

    /** An uploaded image joins the pending list. */
    method AddPendingImage(image: string)
      modifies this
      ensures pendingImages == old(pendingImages) + [image] && messages == old(messages)
    {
      pendingImages := pendingImages + [image];
    }

    /** A preview's remove button. */
    method RemovePendingImage(image: string) returns (removed: bool)
      modifies this
      ensures removed <==> image in old(pendingImages)
      ensures pendingImages == RemoveFirst(old(pendingImages), image) && messages == old(messages)
    {
      var index := IndexOf(pendingImages, image);
      removed := index > -1;
      if index > -1 {
        pendingImages := pendingImages[..index] + pendingImages[index + 1..];
      }
    }

    /** `handleWheel`: with Ctrl held the font size takes one step. */
    method HandleWheel(ctrlKey: bool, deltaY: int)
      modifies plugin
      ensures !ctrlKey ==> plugin.settings == old(plugin.settings)
      ensures ctrlKey ==> plugin.settings == old(plugin.settings).(fontSize := FontStep(old(plugin.settings.fontSize), deltaY))
      ensures plugin.vault == old(plugin.vault)
    {
      if ctrlKey {
        var newSize := FontStep(plugin.settings.fontSize, deltaY);
        if newSize != plugin.settings.fontSize {
          plugin.settings := plugin.settings.(fontSize := newSize);
        }
      }
    }
  }
}
