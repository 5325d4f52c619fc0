# AI chat plugin for Obsidian: a verified model of its core

The plugin (`main.js`) adds a chat pane to Obsidian. In the pane:

- The user types a message, optionally with images.
- The message goes to an OpenAI-style `/v1/chat/completions` endpoint.
- The streamed reply is shown piece by piece.
- The conversation is kept in a running Markdown transcript inside the vault.
- A conversation can be archived as a timestamped Markdown file.
- Two commands (Alt+Up and Alt+Down) walk back and forth through the archives.

Most of the file builds the user interface. This project models the deterministic core underneath it in Dafny and proves what that core promises.

The project has seven modules, one per file:

| module | file | what it holds |
|---|---|---|
| `Text` | `text.dfy` | `split('\n')`, `join('\n')`, `trim()`, decimal digits and zero padding, with their laws |
| `Transcript` | `transcript.dfy` | the Markdown transcript codec (`formatMessagesToMarkdown`, the body loop of `saveChatHistoryToFile`, `parseMarkdownToChatHistory`) and its round trip |
| `Stream` | `stream.dfy` | the read loop of `callAI` as a fold over decoded chunks |
| `Request` | `request.dfy` | the API-key and base-URL extraction of `callAI` and the message payload it builds |
| `PluginSettings` | `settings.dfy` | `loadSettings`, the settings-tab editors (history folder, list editors), the key labels of the drop-downs, the Ctrl+wheel font size |
| `History` | `history.dfy` | the vault as files and folders, `getHistoryFiles`, the archive file name built from `toISOString`, the index arithmetic of the restore commands |
| `Session` | `session.dfy` | the classes `Plugin` (settings and vault) and `ChatView` (`messages`, `pendingImages`), with the handlers that change them |

The model treats these as inputs:

- The clock: a message's time is a time of day, `Transcript.Stamp`. The archive moment is an `History.Instant` (date fields, UTC).
- The modification times of written files.
- The decoded chunks of the HTTP response.
- The result of `JSON.parse(...).choices[0]?.delta?.content`, supplied as a function `decode: string -> Stream.Delta`.

The vault is a list of files, in the order `getFiles()` returns them, plus a set of folders. A list rather than a map is used because the stable sort of the listing depends on that order. `vault.create` and `vault.createFolder` fail when the path is empty or already taken. The model treats that failure exactly as the source treats the rejected promise.

Where the code and its accompanying description differ, the model follows the code:

- `renderMessages` puts every turn on screen twice. Its `forEach` walks the copied list while `addMessage` pushes onto it; the walk visits only the original length, so every turn ends up on screen twice.
- The message for the text being sent is always plain text: `pendingImages` has already been emptied when `callAI` builds it. `Session.SentTwice` states this.

## Model

| member | source | states |
|---|---|---|
| Text.JoinSplit | main.js:2160 | joining the pieces of `split('\n')` with `\n` gives the text back |
| Text.SplitJoin | main.js:2160 | splitting the join of non-empty-list pieces that hold no `\n` gives the pieces back |
| Text.SplitConcat | main.js:2160 | the lines of `a + "\n" + b` are the lines of `a` followed by those of `b` |
| Text.TrimEmptyIffBlank | main.js:774 | `trim()` is empty exactly when every character is white space or a line terminator |
| Text.TrimStartShape | main.js:774 | the start-trimmed text is a suffix of the input, what was cut is white space, and it does not start with white space |
| Text.TrimEndShape | main.js:774 | the end-trimmed text is a prefix of the input, what was cut is white space, and it does not end with white space |
| Text.TrimEnds | main.js:774 | the trimmed text neither starts nor ends with white space |
| Text.PadValue | main.js:2102 | a zero-padded field reads back as the number it was made from |
| Transcript.ArchiveContent | main.js:2107-2112 | the `content +=` loop writes exactly the blocks `### {你/AI} ({time})\n\n{content}\n\n` of the messages in order, i.e. `Format(history)` |
| Transcript.FormatSnoc | main.js:1282-1288 | the transcript of messages plus one more is the old transcript followed by that message's block |
| Transcript.ParseMarkdownToChatHistory | main.js:2159-2198 | the line loop with `currentRole`, `currentTime` and `currentContent` computes `Parse(content)`, a fold over the lines that flushes a turn at each header and at the end |
| Transcript.PreambleIgnored | main.js:2183-2187 | lines before the first header line are dropped |
| Transcript.HeaderWithoutBodyDropped | main.js:2171-2178 | a header directly followed by another header yields no turn |
| Transcript.RunBody | main.js:2183-2187 | once a header has been seen, every line that is not a header, `###` lines with other markers included, is added to the body unchanged |
| Transcript.HeaderRecognised | main.js:2167-2168 | the header line written for a turn whose time is a valid H:MM:SS is recognised with its role and time, whatever follows the `)` |
| Transcript.TimeTextShape | main.js:2167 | the H:MM:SS clock text of a valid time is read back by `\d{1,2}:\d{2}:\d{2}` as the same hour, minute and second |
| Transcript.StampKept | main.js:2173-2176 | the time read back from a written header is the time written, and `你` reads back as the user, `AI` as the assistant |
| Transcript.RoundTrip | main.js:1282-1288 | for turns whose times are valid and whose contents hold no header line, parsing the transcript gives as many turns, with the same roles and times; every content comes back as `"\n" + c + "\n"`, the last one as `"\n" + c + "\n\n"` |
| Stream.StripDataPrefix | main.js:1004 | a leading `data: ` is removed once, and a line without it is kept |
| Stream.ReadStream | main.js:992-1024 | the `while` read loop ends with `accumulatedContent == Reply(chunks, decode)` and has rendered `Rendered(...)`, the texts handed to the renderer |
| Stream.ReadLines | main.js:997-1023 | the loop over one chunk's lines appends each line's content to the reply and renders after every non-empty piece |
| Stream.AccumulatedGrows | main.js:1010-1011 | the reply only grows: the text after some lines is a prefix of the text after more |
| Stream.RenderedGrowToFinal | main.js:1010-1018 | each rendered text strictly extends the one before, every one is a prefix of the final reply, the last is the final reply, and nothing is rendered exactly when the reply is empty |
| Stream.NoCarryOver | main.js:996-998 | lines are split chunk by chunk: the reply for two runs of chunks is the two replies one after the other |
| Stream.SkippedLineIgnored | main.js:999-1021 | a blank line, `data: [DONE]`, a line that does not parse or has no content leaves the reply as if it were absent, and the loop goes on |
| Request.MatchKey | main.js:149 | `/(.*?)(sk-\S+)/` finds a match exactly when some position starts `sk-` followed by a non-space character |
| Request.ExtractApiKey | main.js:894-898 | without a match the entry itself is the key; with one, the key starts with `sk-`, is longer than three characters and holds no white space |
| Request.KeyIsFirstMaximalRun | main.js:895-897 | the key is taken at the first `sk-` occurrence and runs to the next white space |
| Request.BareKeyKept | main.js:894-898 | a bare key with no white space is sent unchanged |
| Request.KeyExtractionIdempotent | main.js:894-898 | extracting the key from an extracted key changes nothing |
| Request.NotedKey | main.js:894-898 | for an entry `note key` whose one-line note holds no key, the key is what is sent, and the label match splits the entry into the note with its space and the key |
| Request.StripTrailingSlash | main.js:900 | `replace(/\/$/, '')` removes exactly one trailing slash |
| Request.ExtractBaseUrl | main.js:900-904 | without an `http(s)://` run the stripped address is kept; with one, the base is a URL with no white space |
| Request.BaseIsFirstMaximalRun | main.js:900-904 | with a URL in the address, the base starts at the first `http(s)://` followed by a non-space character in the address stripped of one trailing slash, and runs up to the next white space or the end |
| Request.CleanUrlEndpoint | main.js:900-905 | a plain URL with or without one trailing slash gives the endpoint `url + "/v1/chat/completions"` |
| Request.SlashBeforeSpaceKept | main.js:900-904 | only the very last character is tested for a slash: `"http://a/ "` keeps its slash |
| Request.KeyEntry | main.js:894 | `currentApiKey || apiKey[0]` is missing exactly when no key is selected and the list is empty |
| Request.PartsRoundTrip | main.js:912-927 | the parts of a message with images start with its text and give back exactly its images, in order |
| Request.BuildParts | main.js:911-927 | the `forEach` builds the text part followed by one `data:image/jpeg;base64,` part per image |
| Request.BuildMessages | main.js:908-967 | the mapped messages (user messages with an `images` field as parts, all others as plain text) followed by the current message |
| Request.PrepareRequest | main.js:892-967 | no request without a key entry; otherwise the endpoint, the extracted key, the model and the message list |
| PluginSettings.StripSlashesShape | main.js:1828-1830 | the stored history path is a slice of the input with only slashes cut off both ends, and it neither starts nor ends with a slash |
| PluginSettings.StripSlashesIdempotent | main.js:2018 | stripping a stripped path changes nothing |
| PluginSettings.TempFileFor | main.js:1833 | the running transcript is `{folder}/临时对话.md`, or no file when the folder is empty |
| PluginSettings.AsList | main.js:2023-2031 | a stored array is kept as it is; a single stored value becomes a one-entry list, or the empty list when it is empty; an absent key gives the default empty list |
| PluginSettings.Selected | main.js:2033-2041 | a non-empty selection is kept; an empty one is filled with the list's first entry, and stays empty only when the list is empty |
| PluginSettings.LoadSettings | main.js:2012-2048 | with nothing stored the settings are `DEFAULT_SETTINGS`; otherwise each stored key wins over its default, lists go through `AsList`, selections through `Selected`, the history folder is cleaned of slashes and, whenever one was stored, holds the running transcript, even when cleaning leaves it empty (`/` gives `/临时对话.md`) |
| PluginSettings.LoadedSettingsShape | main.js:2012-2048 | after loading, the history path has no slash at either end, the running transcript sits in the folder, an empty selection means an empty list (or an empty first entry), and a scalar stored list holds no empty entry |
| PluginSettings.SaveLoadStable | main.js:2012-2048 | saving the loaded settings and loading them again gives the same settings |
| PluginSettings.WithHistoryFolder | main.js:1826-1834 | the history-folder field stores the stripped path and moves the running transcript into it; nothing else changes |
| PluginSettings.WithPickedFolder | main.js:1857-1860 | a picked folder is stored as it is, with the running transcript inside it, and no other setting changes |
| PluginSettings.NonBlankLines | main.js:1666 | `filter(line => line.trim())` keeps only lines that are not blank, each taken from the input |
| PluginSettings.NonBlankLinesConcat | main.js:1666 | the filter works line by line and in order: filtering `a + b` gives the filtered `a` followed by the filtered `b` |
| PluginSettings.NonBlankLine | main.js:1666 | a single line is kept exactly when its trim is not empty |
| PluginSettings.NonBlankLinesComplete | main.js:1666 | every line that is not blank is kept |
| PluginSettings.ListEditRoundTrip | main.js:1660-1670 | editing a list of single-line, non-blank entries without changes gives the same list |
| PluginSettings.EditList | main.js:1665-1670 | each list editor replaces its list and selects the first entry, or nothing; the other fields stay |
| PluginSettings.EditedSelection | main.js:1666-1669 | after an edit the selection is empty exactly when the list is, and otherwise is the first entry |
| PluginSettings.BareKeyLabels | main.js:149-155 | a bare key is labelled by its first ten characters and `...` in all three drop-downs |
| PluginSettings.NotedKeyLabels | main.js:548-551 | a noted key shows `note (sk-xxxxxxx...)` in the settings, the trimmed note in the chat selector, and the note with `...` after a refresh |
| PluginSettings.FontStep | main.js:1572-1583 | the size after a Ctrl+wheel step stays within 8..32 |
| PluginSettings.FontStepDirection | main.js:1575-1576 | within range, scrolling down makes the size one smaller and scrolling up one larger, stopping at the bounds |
| PluginSettings.FontStepUndo | main.js:1575-1576 | a step down and then a step up gives back the size, away from the lower bound |
| History.Create | main.js:2115 | `vault.create` fails exactly when the path is empty or taken, and otherwise appends the file |
| History.CreateFolder | main.js:2093 | `vault.createFolder` fails exactly when the path is empty or taken, and otherwise adds the folder |
| History.CreatePreservesValid | main.js:2115 | creating a file keeps paths distinct, non-empty and apart from folders |
| History.SaveLiveStores | main.js:1266-1279 | writing the running transcript keeps the vault valid and leaves the file holding the content, unless its path is empty or a folder's, where nothing changes |
| History.Insert | main.js:2213 | inserting into the sorted listing adds exactly that file |
| History.SortNewestFirst | main.js:2213 | the sort is a permutation of the filtered files |
| History.SortIsNewestFirst | main.js:2213 | the sorted listing has non-increasing modification times |
| History.HistoryFilesListing | main.js:2201-2216 | with the folder set and present, the listing is newest first and holds exactly the vault's `.md` files whose path starts with the folder's |
| History.RunningTranscriptListed | main.js:2211-2212 | the running transcript in the history folder is listed among the archives |
| History.SiblingFolderListed | main.js:2212 | the prefix test is textual: a Markdown file in a sibling folder whose name extends the history folder's is listed too |
| History.MarkdownExtension | main.js:2212 | a file `{stem}.md` directly in a folder has the extension `md` |
| History.ArchiveStampLayout | main.js:2100-2104 | the name built from `toISOString()` is `YYYY-MM-DD_HH-mm-ss-sss` |
| History.ArchiveStampInjective | main.js:2102 | moments a millisecond or more apart get different archive names |
| History.StampHasNoSlash | main.js:2102-2104 | the archive name holds no `/`, so the archive sits directly in the history folder |
| History.ArchiveFileListed | main.js:2104-2115 | an archive written into the history folder is listed |
| History.IndexOfPath | main.js:1933 | `findIndex` gives the first index with the path, or -1 when there is none |
| History.RestoreIndexRange | main.js:1933-1940 | both commands pick an index of the listing and stay put only at their end of it; away from the ends they move by one |
| History.OlderThenNewer | main.js:1934-1957 | one step older and then one step newer comes back, away from the oldest |
| History.LoadedFileFound | main.js:1933-1956 | a file loaded from the listing is found again at the index it was loaded from |
| History.ListingDistinct | main.js:2211-2213 | the listing of a valid vault repeats no path |
| Session.ArchiveEffect | main.js:2083-2118 | archiving keeps the vault valid; with no history folder it does nothing; when `create` throws the settings are untouched; on success the transcript is appended as `{folder}/{stamp}.md` and becomes the current history file |
| Session.ArchiveSucceeds | main.js:2089-2115 | the archive is written whenever the history folder is set, is not a file, and its name is free |
| Session.ArchiveListed | main.js:2100-2118 | a written archive appears in the listing the restore commands walk, with the transcript as its content |
| Session.ArchiveTwiceSameInstant | main.js:2100-2115 | a second archive in the same millisecond finds its name taken and throws |
| Session.RestoreListed | main.js:1927-1939 | what a restore command loads is a listed archive: a Markdown file of the history folder |
| Session.RestoreStartsAtNewest | main.js:1933-1957 | with no listed archive open, both commands load the newest |
| Session.RestoreOlderThenNewer | main.js:1927-1964 | Alt+Up from an archive that is not the oldest loads the next older one, and Alt+Down from there loads the one it started from |
| Session.SentTwice | main.js:773-810 | the request ends with the new message as parts (exactly the images that were pending), the empty placeholder reply, and the same text once more as plain text; it fails for lack of a key exactly when none is selected or listed |
| Session.RenderedTwice | main.js:1203-1212 | after a re-render every turn is on screen twice, and the next request sends the copy of a user turn as a one-part list |
| Session.IndexOf | main.js:1463 | `indexOf` gives the first index of the image, or -1 exactly when it is not pending |
| Session.RemoveFirstCount | main.js:1463-1466 | the remove button takes out exactly one copy of a pending image and changes nothing otherwise |
| Session.AddThenRemove | main.js:1462-1466 | removing an image just added, which was not pending before, restores the list |
| Session.Plugin.constructor | main.js:2012-2048 | the plugin starts with the loaded settings |
| Session.Plugin.SaveChatHistoryToFile | main.js:2083-2118 | the outcome, vault and settings are those of `ArchiveStepOf`; the vault stays valid |
| Session.Plugin.LoadHistoryFile | main.js:2219-2240 | the current history file and the saved history come from the file, and the open view shows the parsed turns followed by their copies |
| Session.Plugin.Restore | main.js:1927-1964 | nothing happens when no archive is listed or the current one is at that end; otherwise the target file is loaded |
| Session.Plugin.SetHistoryPath | main.js:1826-1845 | the setting is updated and the folder created when nothing is at that path; a failed folder creation leaves the vault unchanged, and the setting is updated anyway |
| Session.Plugin.PickHistoryFolder | main.js:1857-1860 | the picked folder and its running transcript are stored |
| Session.ChatView.constructor | main.js:441-446 | a view starts with no messages; its pending list starts empty, as `initializeImageUpload` sets it (main.js:1335) |
| Session.ChatView.AddMessage | main.js:812-818 | the message is pushed on screen, and onto the saved history when `save` is set |
| Session.ChatView.CreateAssistantMessage | main.js:1315-1319 | an empty assistant reply with no `images` field is pushed |
| Session.ChatView.SaveTemp | main.js:1266-1279 | the running transcript holds the transcript of the messages on screen; the vault stays valid |
| Session.ChatView.CallAI | main.js:892-1030 | the outcome is `SendOutcomeOf` the messages on screen; on a streamed reply a trailing assistant message receives the reply |
| Session.ChatView.HandleSendMessage | main.js:773-810 | nothing happens for blank text without images; otherwise the user turn (with the pending images) goes on screen and into the saved history, the images are cleared, the placeholder receives the reply (or stays empty), and the running transcript is written before the request and again after a reply |
| Session.ChatView.Clear | main.js:585-597 | with no messages nothing changes; otherwise the screen and the saved history are emptied and the running transcript is emptied too |
| Session.ChatView.NewConversation | main.js:748-771 | a non-empty conversation is archived first; if that throws nothing else changes, otherwise the screen, the saved history and the current history file are cleared; the running transcript is not rewritten |
| Session.ChatView.RenderMessages | main.js:1203-1212 | the screen shows the saved history followed by a copy of every turn with an empty `images` list |
| Session.ChatView.AddPendingImage | main.js:1343 | the image joins the end of the pending list |
| Session.ChatView.RemovePendingImage | main.js:1462-1474 | the first copy of the image is removed when there is one, and the result says whether there was |
| Session.ChatView.HandleWheel | main.js:1572-1583 | with Ctrl held the font size takes one `FontStep`; without it nothing changes |

## Left out

- The user interface is not modelled: the DOM, modals, drop-down elements, notices, the Markdown renderer, the clipboard, the theme observer, focus timers and the injected CSS. The rendered texts of the stream are kept as a list of strings.
- `fetch`, `response.body.getReader()` and `TextDecoder` are not modelled: the response is a list of already-decoded chunks, or a refusal. A multi-byte character cut by a chunk boundary is not modelled.
- `JSON.parse` and the `choices[0]?.delta?.content` lookup are the `decode` parameter.
- `toLocaleTimeString` is fixed to the H:MM:SS form. The `Date` parse of the header time covers the two-digit hour only; a one-digit hour (`new Date("1970-01-01T9:05:07Z")`) is not modelled separately, and the model reads it as that hour.
- Time zones are not modelled: local time is taken as UTC.
- Archive-name lemmas cover years 0 to 9999 only. `toISOString` writes other years with a sign and six digits.
- `saveSettings`/`loadData` persistence is not modelled. Stored values are strings or string lists; stored values of other types and the stored form of `chatHistory` (dates become strings in JSON) are not modelled.
- `FileReader`, paste and drag-and-drop are not modelled: an image is an opaque string.
- The focus-mode and auto-clear toggles, the preset options, and what `onOpen` does with the saved history when the view opens are not modelled.
- The duplicates with a hard-coded folder (main.js:1215-1243 and main.js:2123-2156) and the second copy of the parser (main.js:1161-1200) are not modelled separately: the parser is modelled once.
- Obsidian's rules for `vault.create` are modelled only as "fails on an empty or taken path": `normalizePath`, missing parent folders and the extension of dot-files are not.
- Loading a history file updates every open chat view. The model has one view; the `Restore` and `LoadHistoryFile` methods take it as a parameter.
- Handlers are modelled as atomic, one after another. Two sends in flight at once, and the aliasing of message objects between `messages` and `chatHistory`, are not modelled. Every field a later step changes is a fresh value in the model.
- History.SortNewestFirst: stated as a permutation in newest-first order. That it keeps files with equal times in their original order (stability) is not stated.
- PluginSettings.FontStep: the wheel's `deltaY` is a number in the source; only its sign matters, so it is an integer here.
