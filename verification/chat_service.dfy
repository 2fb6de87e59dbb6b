/**
 * `GeminiService.sendMessage` of services/geminiService.ts: the history is
 * trimmed so that it starts with a user turn, the new message is appended,
 * and every failure is turned into one of two fixed replies.  The model call
 * itself is a parameter: what it returned, or the message it failed with.
 */
module ChatService {
  import opened Wrappers

  datatype Role = User | Model

  datatype Part = Part(text: string)

  /** One turn of the conversation: `{ role, parts }`. */
  datatype Content = Content(role: Role, parts: seq<Part>)

  const ConfigurationReply: string :=
    "\U{26A0}\U{FE0F} Error de Configuraci\U{f3}n: La clave de API no est\U{e1} activa."
  const ApologyReply: string :=
    "Lo sentimos, el servicio de consultor\U{ed}a IA ha experimentado un error. Por favor, intente de nuevo en unos minutos."

  /** Messages of the errors `sendMessage` throws itself. */
  const KeyMissingError: string := "API_KEY_MISSING"
  const EmptyResponseError: string := "EMPTY_RESPONSE"

  // ---------------------------------------------------------------------------
  // History
  // ---------------------------------------------------------------------------

  /** No turn of `h` has the user role. */
  predicate NoUserTurn(h: seq<Content>) {
    forall i :: 0 <= i < |h| ==> h[i].role != User
  }

  /**
   * The history clean-up: leading turns are dropped while the first one is not a user
   * turn.  What is left is a suffix of the history that is empty or starts
   * with a user turn, and everything dropped was a non-user turn.
   */
  function TrimHistory(h: seq<Content>): (r: seq<Content>)
    ensures |r| <= |h| && r == h[|h| - |r|..]
    ensures |r| == 0 || r[0].role == User
    ensures NoUserTurn(h[..|h| - |r|])
    decreases |h|
  {
    if |h| > 0 && h[0].role != User then TrimHistory(h[1..]) else h
  }

  /** The `while`/`shift` loop of the clean-up, on an index instead of a copy. */
  method TrimLoop(history: seq<Content>) returns (valid: seq<Content>)
    ensures valid == TrimHistory(history)
  {
    var k := 0;
    while k < |history| && history[k].role != User
      invariant 0 <= k <= |history|
      invariant TrimHistory(history[k..]) == TrimHistory(history)
    {
      assert history[k..][1..] == history[k + 1..];
      k := k + 1;
    }
    valid := history[k..];
  }

  /**
   * The trimmed history is exactly the suffix from the first user turn, or
   * empty when there is none: everything from that turn on is kept, in order
   * and unchanged, whether or not the roles alternate afterwards.
   */
  lemma {:induction false} TrimHistoryUnique(h: seq<Content>, k: nat)
    requires k <= |h|
    requires k == |h| || h[k].role == User
    requires NoUserTurn(h[..k])
    ensures TrimHistory(h) == h[k..]
    decreases k
  {
    if k > 0 {
      assert h[..k][0] == h[0];
      assert h[1..][..k - 1] == h[..k][1..];
      TrimHistoryUnique(h[1..], k - 1);
      assert h[1..][k - 1..] == h[k..];
    }
  }

  /** A history that already starts with a user turn is kept whole, so trimming is idempotent. */
  lemma TrimHistoryIdempotent(h: seq<Content>)
    ensures |h| > 0 && h[0].role == User ==> TrimHistory(h) == h
    ensures TrimHistory(TrimHistory(h)) == TrimHistory(h)
  {
  }

  /** A history without user turns is dropped entirely. */
  lemma TrimDropsAllModelHistory(h: seq<Content>)
    requires NoUserTurn(h)
    ensures TrimHistory(h) == []
  {
    assert h[..|h|] == h;
    TrimHistoryUnique(h, |h|);
  }

  /**
   * The `contents` array: the trimmed history followed by the new message as a user
   * turn with one text part.
   */
  function BuildContents(history: seq<Content>, message: string): (contents: seq<Content>)
    ensures 0 < |contents| <= |history| + 1
    ensures contents[|contents| - 1] == Content(User, [Part(message)])
    ensures contents[0].role == User
    ensures contents[..|contents| - 1] == TrimHistory(history)
  {
    var valid := TrimHistory(history);
    var turn := Content(User, [Part(message)]);
    assert (valid + [turn])[..|valid|] == valid;
    valid + [turn]
  }

  /** An all-model history sends only the new message. */
  lemma ModelOnlyHistorySendsMessage(history: seq<Content>, message: string)
    requires NoUserTurn(history)
    ensures BuildContents(history, message) == [Content(User, [Part(message)])]
  {
    TrimDropsAllModelHistory(history);
  }

  // ---------------------------------------------------------------------------
  // sendMessage
  // ---------------------------------------------------------------------------

  /** What `generateContent` did: its `response.text` ("" when undefined), or the message it threw. */
  datatype ApiOutcome = Responded(text: string) | Threw(message: string)

  /** The request sent to the model (none when the key is missing) and the string returned. */
  datatype Exchange = Exchange(request: Option<seq<Content>>, reply: string)

  /** The catch block of `sendMessage`. */
  function ReplyForError(message: string): (r: string)
    ensures r == ConfigurationReply || r == ApologyReply
    ensures r == ConfigurationReply <==> message == KeyMissingError
  {
    if message == KeyMissingError then ConfigurationReply else ApologyReply
  }

  /**
   * `sendMessage` with API key `apiKey` ("" when unset), where `api` is what
   * the model call does with the request.
   */
  function SendMessage(apiKey: string, message: string, history: seq<Content>, api: ApiOutcome): (r: Exchange)
    ensures apiKey == "" <==> r.request.None?
    ensures apiKey == "" ==> r.reply == ConfigurationReply
    ensures r.request.Some? ==> r.request.value == BuildContents(history, message)
  {
    if apiKey == "" then Exchange(None, ReplyForError(KeyMissingError))
    else
      var contents := BuildContents(history, message);
      match api
      case Responded(text) =>
        if text == "" then Exchange(Some(contents), ReplyForError(EmptyResponseError))
        else Exchange(Some(contents), text)
      case Threw(m) => Exchange(Some(contents), ReplyForError(m))
  }

  /**
   * With a key set, a non-empty response text is returned verbatim, an empty
   * one gives the apology, and a thrown error gives the apology unless its
   * message is the one the missing-key check uses.
   */
  lemma SendMessageReplies(apiKey: string, message: string, history: seq<Content>, api: ApiOutcome)
    requires apiKey != ""
    ensures api.Responded? && api.text != "" ==> SendMessage(apiKey, message, history, api).reply == api.text
    ensures api == Responded("") ==> SendMessage(apiKey, message, history, api).reply == ApologyReply
    ensures api.Threw? && api.message != KeyMissingError ==>
      SendMessage(apiKey, message, history, api).reply == ApologyReply
  {
  }

  /** The reply is the model's text or one of the two fixed strings, and it is never empty. */
  lemma SendMessageReplyKinds(apiKey: string, message: string, history: seq<Content>, api: ApiOutcome)
    ensures var reply := SendMessage(apiKey, message, history, api).reply;
      reply != "" &&
      (reply == ConfigurationReply || reply == ApologyReply || (api.Responded? && reply == api.text))
  {
    assert |ConfigurationReply| > 0 && |ApologyReply| > 0;
    var r := SendMessage(apiKey, message, history, api);
    if apiKey != "" && api.Threw? {
      assert r.reply == ReplyForError(api.message);
    }
  }
}
