/** What `callAI` sends: the API key picked out of the selected key entry,
    the endpoint built from the selected base address, and the message list
    mapped into the chat-completions payload. */
module Request {
  import opened Text
  import opened Transcript

  // ---------------------------------------------------------------------------
  // Finding the first match of a pattern
  // ---------------------------------------------------------------------------

  /** `s[q..]` begins with `lit`. */
  predicate LiteralAt(s: string, q: nat, lit: string) {
    q + |lit| <= |s| && s[q..q + |lit|] == lit
  }

  /** The first position at or after `i` where `at` holds. */
  function First(s: string, i: nat, at: (string, nat) -> bool): (r: Option<nat>)
    requires i <= |s|
    ensures r.Some? ==> i <= r.value < |s| && at(s, r.value)
    ensures r.Some? ==> forall j :: i <= j < r.value ==> !at(s, j)
    ensures r.None? ==> forall j :: i <= j < |s| ==> !at(s, j)
    decreases |s| - i
  {
    if i == |s| then None
    else if at(s, i) then Some(i)
    else First(s, i + 1, at)
  }

  /** The end of the run of non-`\s` characters that starts at `i` (`\S+`, greedy). */
  function RunEnd(s: string, i: nat): (e: nat)
    requires i <= |s|
    ensures i <= e <= |s|
    ensures e == |s| || IsSpace(s[e])
    ensures forall k :: i <= k < e ==> !IsSpace(s[k])
    decreases |s| - i
  {
    if i < |s| && !IsSpace(s[i]) then RunEnd(s, i + 1) else i
  }

  /** Where the line holding position `q` starts: `.` does not cross a line
      terminator, so this is where a match of `(.*?)` before `q` begins. */
  function LineStart(s: string, q: nat): (p: nat)
    requires q <= |s|
    ensures p <= q
    ensures p == 0 || IsLineTerminator(s[p - 1])
    ensures forall k :: p <= k < q ==> !IsLineTerminator(s[k])
  {
    if q == 0 then 0
    else if IsLineTerminator(s[q - 1]) then q
    else LineStart(s, q - 1)
  }

  // ---------------------------------------------------------------------------
  // The API key: /(.*?)(sk-\S+)/
  // ---------------------------------------------------------------------------

  /** `sk-` followed by at least one non-space character starts at `q`. */
  predicate KeyAt(s: string, q: nat) {
    LiteralAt(s, q, "sk-") && q + 3 < |s| && !IsSpace(s[q + 3])
  }

  /** The two groups of a successful match: the note before the key (from the
      start of its line) and the key itself. */
  datatype KeyMatch = KeyMatch(note: string, key: string)

  /** `line.match(/(.*?)(sk-\S+)/)`. */
  function MatchKey(s: string): (m: Option<KeyMatch>)
    ensures m.None? <==> forall q :: 0 <= q < |s| ==> !KeyAt(s, q)
  {
    match First(s, 0, KeyAt)
    case None => None
    case Some(q) => Some(KeyMatch(s[LineStart(s, q)..q], s[q..RunEnd(s, q)]))
  }

  /** The key `callAI` sends: group 2 of the match, or the whole entry. */
  function ExtractApiKey(entry: string): (key: string)
    ensures MatchKey(entry).None? ==> key == entry
    ensures MatchKey(entry).Some? ==> StartsWith(key, "sk-") && |key| > 3
    ensures MatchKey(entry).Some? ==> forall k :: 0 <= k < |key| ==> !IsSpace(key[k])
  {
    match MatchKey(entry)
    case None => entry
    case Some(m) => m.key
  }

  /** The key is taken at its first occurrence and runs to the next space. */
  lemma KeyIsFirstMaximalRun(entry: string)
    requires MatchKey(entry).Some?
    ensures exists q ::
      0 <= q < |entry| && KeyAt(entry, q) && (forall j :: 0 <= j < q ==> !KeyAt(entry, j))
      && ExtractApiKey(entry) == entry[q..RunEnd(entry, q)]
  {
    var q := First(entry, 0, KeyAt).value;
    assert ExtractApiKey(entry) == entry[q..RunEnd(entry, q)];
  }

  /** A string made of no spaces that begins with a key is its own key. */
  lemma {:induction false} BareKeyKept(key: string)
    requires KeyAt(key, 0)
    requires forall k :: 0 <= k < |key| ==> !IsSpace(key[k])
    ensures ExtractApiKey(key) == key
  {
    assert First(key, 0, KeyAt) == Some(0);
    RunEndOfNoSpace(key, 0);
  }

  lemma {:induction false} RunEndOfNoSpace(s: string, i: nat)
    requires i <= |s|
    requires forall k :: i <= k < |s| ==> !IsSpace(s[k])
    ensures RunEnd(s, i) == |s|
    decreases |s| - i
  {
    if i < |s| {
      RunEndOfNoSpace(s, i + 1);
    }
  }

  /** Extracting the key twice gives the key: what `callAI` sends is already a key. */
  lemma KeyExtractionIdempotent(entry: string)
    ensures ExtractApiKey(ExtractApiKey(entry)) == ExtractApiKey(entry)
  {
    if MatchKey(entry).Some? {
      var key := ExtractApiKey(entry);
      assert key[..3] == "sk-";
      assert KeyAt(key, 0);
      BareKeyKept(key);
    }
  }

  /** An entry written as `note key`, with no key inside the note and no line
      break in it, yields the note (with its trailing space) and the key. */
  lemma NotedKey(note: string, key: string)
    requires forall q :: 0 <= q < |note| ==> !KeyAt(note, q)
    requires forall k :: 0 <= k < |note| ==> !IsLineTerminator(note[k])
    requires KeyAt(key, 0)
    requires forall k :: 0 <= k < |key| ==> !IsSpace(key[k])
    ensures MatchKey(note + " " + key) == Some(KeyMatch(note + " ", key))
    ensures ExtractApiKey(note + " " + key) == key
  {
    var s := note + " " + key;
    var q := |note| + 1;
    assert s[q..] == key;
    forall j | 0 <= j < q ensures !KeyAt(s, j) {
      if j + 3 < |note| {
        assert s[j..j + 3] == note[j..j + 3];
        assert s[j + 3] == note[j + 3];
        assert !KeyAt(note, j);
      } else if j + 3 == |note| {
        assert s[j + 3] == ' ';
      } else {
        // the space after the note falls inside the three literal characters
        assert s[|note|] == ' ';
        assert j + 3 <= |s| ==> s[j..j + 3][|note| - j] == ' ';
      }
    }
    assert s[q..q + 3] == key[..3];
    assert KeyAt(s, q);
    FirstSkips(s, 0, q, KeyAt);
    assert First(s, 0, KeyAt) == Some(q);
    forall k | q <= k < |s| ensures !IsSpace(s[k]) {
      assert s[k] == key[k - q];
    }
    RunEndOfNoSpace(s, q);
    assert s[q..|s|] == key;
    assert IsLineTerminator(' ') == false;
    forall k | 0 <= k < q ensures !IsLineTerminator(s[k]) {
      if k < |note| {
        assert s[k] == note[k];
      }
    }
    LineStartOfClean(s, q);
    assert s[0..q] == note + " ";
  }

  lemma {:induction false} FirstSkips(s: string, i: nat, q: nat, at: (string, nat) -> bool)
    requires i <= q < |s| && at(s, q)
    requires forall j :: i <= j < q ==> !at(s, j)
    ensures First(s, i, at) == Some(q)
    decreases q - i
  {
    if i < q {
      FirstSkips(s, i + 1, q, at);
    }
  }

  lemma {:induction false} LineStartOfClean(s: string, q: nat)
    requires q <= |s|
    requires forall k :: 0 <= k < q ==> !IsLineTerminator(s[k])
    ensures LineStart(s, q) == 0
    decreases q
  {
    if q > 0 {
      LineStartOfClean(s, q - 1);
    }
  }

  // ---------------------------------------------------------------------------
  // The endpoint: replace(/\/$/, '') then /(.*?)(https?:\/\/\S+)/
  // ---------------------------------------------------------------------------

  /** `s.replace(/\/$/, '')`: one trailing slash, if there is one, is removed. */
  function StripTrailingSlash(s: string): (r: string)
    ensures |s| > 0 && s[|s| - 1] == '/' ==> s == r + "/"
    ensures !(|s| > 0 && s[|s| - 1] == '/') ==> r == s
  {
    if |s| > 0 && s[|s| - 1] == '/' then s[..|s| - 1] else s
  }

  /** `http://` or `https://` followed by at least one non-space character starts at `q`. */
  predicate UrlAt(s: string, q: nat) {
    (LiteralAt(s, q, "https://") && q + 8 < |s| && !IsSpace(s[q + 8]))
    || (LiteralAt(s, q, "http://") && q + 7 < |s| && !IsSpace(s[q + 7]))
  }

  /** The base address `callAI` uses: group 2 of the URL match on the address
      with one trailing slash removed, or that address itself. */
  function ExtractBaseUrl(setting: string): (base: string)
    ensures var t := StripTrailingSlash(setting);
      First(t, 0, UrlAt).None? ==> base == t
    ensures var t := StripTrailingSlash(setting);
      First(t, 0, UrlAt).Some? ==> UrlAt(base, 0) && forall k :: 0 <= k < |base| ==> !IsSpace(base[k])
  {
    var t := StripTrailingSlash(setting);
    match First(t, 0, UrlAt)
    case None => t
    case Some(q) =>
      UrlRun(t, q);
      t[q..RunEnd(t, q)]
  }

  /** The run cut out at a URL start is itself a URL with no space in it. */
  lemma UrlRun(s: string, q: nat)
    requires q < |s| && UrlAt(s, q)
    ensures UrlAt(s[q..RunEnd(s, q)], 0)
    ensures forall k :: 0 <= k < |s[q..RunEnd(s, q)]| ==> !IsSpace(s[q..RunEnd(s, q)][k])
  {
    var e := RunEnd(s, q);
    var n := if LiteralAt(s, q, "https://") && q + 8 < |s| && !IsSpace(s[q + 8]) then 8 else 7;
    forall k | q <= k <= q + n ensures !IsSpace(s[k]) {
      if k < q + n {
        assert s[k] == s[q..q + n][k - q];
      }
    }
    assert e > q + n;
    assert s[q..e][..n] == s[q..q + n];
    assert s[q..e][n] == s[q + n];
  }

  /** With a URL in the address, the base is cut out at the first `http://` or
      `https://` start and runs up to the next white space or the end. */
  lemma BaseIsFirstMaximalRun(setting: string)
    requires First(StripTrailingSlash(setting), 0, UrlAt).Some?
    ensures var t := StripTrailingSlash(setting);
      exists q, e :: 0 <= q < e <= |t| && UrlAt(t, q)
        && (forall j :: 0 <= j < q ==> !UrlAt(t, j))
        && (forall k :: q <= k < e ==> !IsSpace(t[k]))
        && (e == |t| || IsSpace(t[e]))
        && ExtractBaseUrl(setting) == t[q..e]
  {
    var t := StripTrailingSlash(setting);
    var q := First(t, 0, UrlAt).value;
    var e := RunEnd(t, q);
    UrlRun(t, q);
    assert ExtractBaseUrl(setting) == t[q..e];
  }

  /** `${baseUrl}/v1/chat/completions`. */
  function Endpoint(setting: string): string {
    ExtractBaseUrl(setting) + "/v1/chat/completions"
  }

  /** A plain address with or without one trailing slash gives the same endpoint. */
  lemma CleanUrlEndpoint(url: string)
    requires UrlAt(url, 0)
    requires forall k :: 0 <= k < |url| ==> !IsSpace(url[k])
    requires url[|url| - 1] != '/'
    ensures ExtractBaseUrl(url) == url
    ensures ExtractBaseUrl(url + "/") == url
    ensures Endpoint(url + "/") == url + "/v1/chat/completions"
  {
    assert First(url, 0, UrlAt) == Some(0);
    RunEndOfNoSpace(url, 0);
    assert url[0..|url|] == url;
    assert (url + "/")[..|url|] == url;
  }

  /** A trailing slash before a trailing space survives: only the very last
      character is looked at before the URL is cut out. */
  lemma SlashBeforeSpaceKept()
    ensures ExtractBaseUrl("http://a/ ") == "http://a/"
  {
    var s := "http://a/ ";
    assert StripTrailingSlash(s) == s;
    assert UrlAt(s, 0) by { assert s[0..7] == "http://"; }
    assert First(s, 0, UrlAt) == Some(0);
    assert RunEnd(s, 9) == 9;
    assert RunEnd(s, 0) == 9;
    assert s[0..9] == "http://a/";
  }

  // ---------------------------------------------------------------------------
  // The key lookup
  // ---------------------------------------------------------------------------

  /** `currentApiKey || apiKey[0]`: `None` when both are missing, where reading
      the match of `undefined` throws. */
  function KeyEntry(currentApiKey: string, apiKeys: seq<string>): (r: Option<string>)
    ensures r.None? <==> currentApiKey == "" && |apiKeys| == 0
    ensures currentApiKey != "" ==> r == Some(currentApiKey)
    ensures currentApiKey == "" && |apiKeys| > 0 ==> r == Some(apiKeys[0])
  {
    if currentApiKey != "" then Some(currentApiKey)
    else if |apiKeys| > 0 then Some(apiKeys[0])
    else None
  }

  // ---------------------------------------------------------------------------
  // The payload
  // ---------------------------------------------------------------------------

  datatype Part = TextPart(text: string) | ImagePart(url: string)

  /** A message's `content`: a plain string or a list of parts. */
  datatype Content = Plain(text: string) | Multi(parts: seq<Part>)

  datatype ApiMessage = ApiMessage(role: Role, content: Content)

  const ImagePrefix := "data:image/jpeg;base64,"

  function DataUrl(image: string): string {
    ImagePrefix + image
  }

  /** The text part followed by one image part per image, in order. */
  function Parts(text: string, images: seq<string>): (parts: seq<Part>)
    ensures |parts| == |images| + 1
  {
    [TextPart(text)] + seq(|images|, i requires 0 <= i < |images| => ImagePart(DataUrl(images[i])))
  }

  /** The mapping applied to each entry of `this.messages`: a user message that
      has an `images` field (even an empty one) is sent as parts. */
  function Payload(m: Turn): ApiMessage {
    if m.role == User && m.images.Some? then ApiMessage(User, Multi(Parts(m.content, m.images.value)))
    else ApiMessage(m.role, Plain(m.content))
  }

  /** The message for the text being sent now. */
  function CurrentMessage(userMessage: string, pendingImages: seq<string>): ApiMessage {
    if |pendingImages| > 0 then ApiMessage(User, Multi(Parts(userMessage, pendingImages)))
    else ApiMessage(User, Plain(userMessage))
  }

  function Payloads(messages: seq<Turn>): (r: seq<ApiMessage>)
    ensures |r| == |messages|
  {
    seq(|messages|, i requires 0 <= i < |messages| => Payload(messages[i]))
  }

  /** The image strings read back out of the parts. */
  function ImagesOf(parts: seq<Part>): seq<string> {
    if |parts| == 0 then []
    else
      var rest := ImagesOf(parts[1..]);
      match parts[0]
      case ImagePart(url) =>
        if StartsWith(url, ImagePrefix) then [url[|ImagePrefix|..]] + rest else rest
      case TextPart(_) => rest
  }

  /** The images of a multimodal message can be read back from its parts, and
      its first part is the text. */
  lemma {:induction false} PartsRoundTrip(text: string, images: seq<string>)
    ensures Parts(text, images)[0] == TextPart(text)
    ensures ImagesOf(Parts(text, images)) == images
    decreases |images|
  {
    var ps := Parts(text, images);
    if |images| > 0 {
      var rest := images[1..];
      PartsRoundTrip(text, rest);
      var qs := Parts(text, rest);
      assert ps[2..] == qs[1..];
      assert ImagesOf(ps[1..]) == [images[0]] + ImagesOf(ps[2..]) by {
        assert ps[1..][1..] == ps[2..];
        assert StartsWith(DataUrl(images[0]), ImagePrefix);
        assert DataUrl(images[0])[|ImagePrefix|..] == images[0];
      }
      assert ImagesOf(qs) == ImagesOf(qs[1..]);
      assert [images[0]] + rest == images;
    }
  }

  /** The `forEach` that pushes one image part per image after the text part. */
  method BuildParts(text: string, images: seq<string>) returns (content: seq<Part>)
    ensures content == Parts(text, images)
  {
    content := [TextPart(text)];
    var i := 0;
    while i < |images|
      invariant 0 <= i <= |images|
      invariant content == Parts(text, images[..i])
    {
      content := content + [ImagePart(DataUrl(images[i]))];
      i := i + 1;
      assert Parts(text, images[..i])[1..] == Parts(text, images[..i - 1])[1..] + [ImagePart(DataUrl(images[i - 1]))];
    }
    assert images[..|images|] == images;
  }

  /** `this.messages.map(...)` followed by the push of the current message. */
  method BuildMessages(messages: seq<Turn>, userMessage: string, pendingImages: seq<string>)
    returns (out: seq<ApiMessage>)
    ensures out == Payloads(messages) + [CurrentMessage(userMessage, pendingImages)]
  {
    out := [];
    var i := 0;
    while i < |messages|
      invariant 0 <= i <= |messages|
      invariant out == Payloads(messages[..i])
    {
      var m := messages[i];
      var msg: ApiMessage;
      if m.role == User && m.images.Some? {
        var parts := BuildParts(m.content, m.images.value);
        msg := ApiMessage(m.role, Multi(parts));
      } else {
        msg := ApiMessage(m.role, Plain(m.content));
      }
      out := out + [msg];
      i := i + 1;
      assert Payloads(messages[..i]) == Payloads(messages[..i - 1]) + [Payload(messages[i - 1])];
    }
    assert messages[..|messages|] == messages;
    var current: ApiMessage;
    if |pendingImages| > 0 {
      var parts := BuildParts(userMessage, pendingImages);
      current := ApiMessage(User, Multi(parts));
    } else {
      current := ApiMessage(User, Plain(userMessage));
    }
    out := out + [current];
  }

  // ---------------------------------------------------------------------------
  // The request
  // ---------------------------------------------------------------------------

  /** What `fetch` is called with: the endpoint, the bearer key, the model
      and the message list (`stream` is always true). */
  datatype ChatRequest = ChatRequest(url: string, apiKey: string, model: string, messages: seq<ApiMessage>)

  /** The part of `callAI` before `fetch`. `None` is the `TypeError` thrown when
      no key is selected and the key list is empty. */
  method PrepareRequest(currentApiKey: string, apiKeys: seq<string>, currentBaseUrl: string,
                        currentModel: string, messages: seq<Turn>, userMessage: string,
                        pendingImages: seq<string>)
    returns (r: Option<ChatRequest>)
    ensures KeyEntry(currentApiKey, apiKeys).None? ==> r.None?
    ensures KeyEntry(currentApiKey, apiKeys).Some? ==>
      r == Some(ChatRequest(Endpoint(currentBaseUrl), ExtractApiKey(KeyEntry(currentApiKey, apiKeys).value),
                            currentModel, Payloads(messages) + [CurrentMessage(userMessage, pendingImages)]))
  {
    var entry := KeyEntry(currentApiKey, apiKeys);
    if entry.None? {
      return None;
    }
    var apiKey := entry.value;
    var keyMatch := MatchKey(apiKey);
    if keyMatch.Some? {
      apiKey := keyMatch.value.key;
    }
    var baseUrl := StripTrailingSlash(currentBaseUrl);
    var urlMatch := First(baseUrl, 0, UrlAt);
    if urlMatch.Some? {
      baseUrl := baseUrl[urlMatch.value..RunEnd(baseUrl, urlMatch.value)];
    }
    var apiUrl := baseUrl + "/v1/chat/completions";
    var payload := BuildMessages(messages, userMessage, pendingImages);
    r := Some(ChatRequest(apiUrl, apiKey, currentModel, payload));
  }
}
