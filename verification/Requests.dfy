/** Parsing a check request whose body has been decoded from JSON, and extracting the prompt. */
module Requests {
  import opened Specs

  datatype Json =
    | JNull
    | JBool(b: bool)
    | JNumber(n: int)
    | JString(s: string)
    | JArray(elems: seq<Json>)
    | JObject(fields: map<string, Json>)

  /** The body as the JSON decoder sees it: malformed text, or a value. */
  datatype Body = Malformed | Decoded(value: Json)

  datatype HttpRequest = HttpRequest(headers: map<string, string>, body: Body)

  datatype RequestType = Completion | ChatCompletion | ListModels | Unknown

  datatype ChatMessage = ChatMessage(role: string, content: string)

  datatype InferenceRequest = InferenceRequest(
    path: string,
    requestType: RequestType,
    modelId: string,
    headers: map<string, string>,
    prompt: Option<string>,
    messages: Option<seq<ChatMessage>>)

  const HEADER_PATH: string := ":path"
  const PATH_COMPLETIONS: string := "/v1/completions"
  const PATH_CHAT_COMPLETIONS: string := "/v1/chat/completions"
  const PATH_MODELS: string := "/v1/models"
  const ROLE_USER: string := "user"

  function Classify(path: string): RequestType {
    if path == PATH_COMPLETIONS then Completion
    else if path == PATH_CHAT_COMPLETIONS then ChatCompletion
    else if path == PATH_MODELS then ListModels
    else Unknown
  }

  /** A failed type assertion, a missing key and a nil map all read as the empty string. */
  function StringField(fields: map<string, Json>, key: string): string {
    if key in fields && fields[key].JString? then fields[key].s else ""
  }

  /** Decoding into a map accepts an object, and accepts `null` as the nil map. */
  function BodyFields(body: Body): Option<map<string, Json>> {
    match body
    case Decoded(JObject(fields)) => Some(fields)
    case Decoded(JNull) => Some(map[])
    case _ => None
  }

  function MessageOf(m: Json): ChatMessage
    requires m.JObject?
  {
    ChatMessage(StringField(m.fields, "role"), StringField(m.fields, "content"))
  }

  /** The objects of an array, in order, as chat messages. */
  function MessagesOf(elems: seq<Json>): seq<ChatMessage> {
    if elems == [] then []
    else
      var init, last := MessagesOf(elems[..|elems| - 1]), elems[|elems| - 1];
      if last.JObject? then init + [MessageOf(last)] else init
  }

  /** The messages of a chat body; nil when there is no array under "messages". */
  function ChatMessages(fields: map<string, Json>): seq<ChatMessage> {
    if "messages" in fields && fields["messages"].JArray? then MessagesOf(fields["messages"].elems) else []
  }

  function ParseSpec(req: HttpRequest): Result<InferenceRequest> {
    if HEADER_PATH !in req.headers then Err("missing :path header")
    else
      var path := req.headers[HEADER_PATH];
      match Classify(path)
      case Unknown => Ok(InferenceRequest(path, Unknown, "", req.headers, None, None))
      case ListModels => Ok(InferenceRequest(path, ListModels, "", req.headers, None, None))
      case Completion => (
        match BodyFields(req.body)
        case None => Err("invalid request body")
        case Some(fields) =>
          Ok(InferenceRequest(path, Completion, StringField(fields, "model"), req.headers,
                              Some(StringField(fields, "prompt")), None)))
      case ChatCompletion => (
        match BodyFields(req.body)
        case None => Err("invalid request body")
        case Some(fields) =>
          Ok(InferenceRequest(path, ChatCompletion, StringField(fields, "model"), req.headers,
                              None, Some(ChatMessages(fields)))))
  }

  method ParseCheckRequest(req: HttpRequest) returns (r: Result<InferenceRequest>)
    ensures r == ParseSpec(req)
  {
    if HEADER_PATH !in req.headers {
      return Err("missing :path header");
    }
    var path := req.headers[HEADER_PATH];
    var ir := InferenceRequest(path, Classify(path), "", req.headers, None, None);
    if ir.requestType.Unknown? {
      return Ok(ir);
    }
    if ir.requestType.Completion? || ir.requestType.ChatCompletion? {
      var decoded := BodyFields(req.body);
      if decoded.None? {
        return Err("invalid request body");
      }
      var fields := decoded.value;
      ir := ir.(modelId := StringField(fields, "model"));
      if ir.requestType.Completion? {
        ir := ir.(prompt := Some(StringField(fields, "prompt")));
      } else {
        var messages: seq<ChatMessage> := [];
        if "messages" in fields && fields["messages"].JArray? {
          var elems := fields["messages"].elems;
          for i := 0 to |elems|
            invariant messages == MessagesOf(elems[..i])
          {
            assert elems[..i + 1][..i] == elems[..i];
            if elems[i].JObject? {
              messages := messages + [MessageOf(elems[i])];
            }
          }
          assert elems[..|elems|] == elems;
        }
        ir := ir.(messages := Some(messages));
      }
    }
    return Ok(ir);
  }

  /** The content of the last message with role "user", if any. */
  function LastUserContent(messages: seq<ChatMessage>): string {
    if messages == [] then ""
    else if messages[|messages| - 1].role == ROLE_USER then messages[|messages| - 1].content
    else LastUserContent(messages[..|messages| - 1])
  }

  function PromptSpec(ir: InferenceRequest): string {
    match ir.requestType
    case Completion => if ir.prompt.Some? then ir.prompt.value else ""
    case ChatCompletion => if ir.messages.Some? then LastUserContent(ir.messages.value) else ""
    case _ => ""
  }

  method PromptText(ir: InferenceRequest) returns (text: string)
    ensures text == PromptSpec(ir)
  {
    match ir.requestType {
      case Completion =>
        if ir.prompt.Some? {
          return ir.prompt.value;
        }
      case ChatCompletion =>
        if ir.messages.Some? {
          var messages := ir.messages.value;
          var i := |messages|;
          assert messages[..i] == messages;
          while i > 0
            invariant 0 <= i <= |messages|
            invariant LastUserContent(messages) == LastUserContent(messages[..i])
          {
            i := i - 1;
            assert messages[..i + 1][..i] == messages[..i];
            if messages[i].role == ROLE_USER {
              return messages[i].content;
            }
          }
          assert messages[..0] == [];
        }
      case _ =>
    }
    return "";
  }

  // ----- What parsing reads -------------------------------------------------------------------

  /** The request is for this path. */
  predicate HasPath(req: HttpRequest, path: string) {
    ":path" in req.headers && req.headers[":path"] == path
  }

  predicate ForCompletion(req: HttpRequest) {
    HasPath(req, "/v1/completions")
  }

  predicate ForChat(req: HttpRequest) {
    HasPath(req, "/v1/chat/completions")
  }

  predicate ForModelList(req: HttpRequest) {
    HasPath(req, "/v1/models")
  }

  /** The body decodes to an object, or to `null`, which has no fields. */
  predicate HasFields(req: HttpRequest) {
    req.body.Decoded? && (req.body.value.JObject? || req.body.value.JNull?)
  }

  /** `text` is the string under `key` in the body; empty if there is none, or it is not a string. */
  predicate BodyString(req: HttpRequest, key: string, text: string) {
    if req.body.Decoded? && req.body.value.JObject? && key in req.body.value.fields
       && req.body.value.fields[key].JString? then
      req.body.value.fields[key] == JString(text)
    else
      text == ""
  }

  /** Parsing fails without a path, and for the two completion paths without a body of fields; that is
      all. */
  lemma ParseFailsExactly(req: HttpRequest)
    ensures ":path" !in req.headers ==> ParseSpec(req) == Err("missing :path header")
    ensures (ForCompletion(req) || ForChat(req)) && !HasFields(req) ==> ParseSpec(req) == Err("invalid request body")
    ensures ParseSpec(req).Ok? <==> ":path" in req.headers && (ForCompletion(req) || ForChat(req) ==> HasFields(req))
  {
  }

  /** The path decides the type; path and headers are kept; the two completion types take their model from
      "model", the others have none; the prompt of a completion is the string under "prompt", and requests
      that are not completions of either kind have no prompt. */
  lemma ParseReads(req: HttpRequest)
    requires ParseSpec(req).Ok?
    ensures var ir := ParseSpec(req).value;
            && HasPath(req, ir.path) && ir.headers == req.headers
            && (ir.requestType == Completion <==> ForCompletion(req))
            && (ir.requestType == ChatCompletion <==> ForChat(req))
            && (ir.requestType == ListModels <==> ForModelList(req))
            && (ForCompletion(req) || ForChat(req) ==> BodyString(req, "model", ir.modelId))
            && (ForCompletion(req) ==> BodyString(req, "prompt", PromptSpec(ir)))
            && (!ForCompletion(req) && !ForChat(req) ==> ir.modelId == "" && PromptSpec(ir) == "")
  {
  }

  // ----- Parse then prompt -------------------------------------------------------------------

  /** The element is an object whose "role" is the string "user". */
  predicate IsUserMessage(m: Json) {
    && m.JObject?
    && "role" in m.fields
    && m.fields["role"] == JString("user")
  }

  /** `text` is the content of the last user message among the elements, a content that is missing
      or not a string reading as empty; it is empty when there is no user message. */
  ghost predicate IsLastUserContent(elems: seq<Json>, text: string) {
    || (exists k :: IsLastUserAt(elems, k) && text == StringField(elems[k].fields, "content"))
    || ((forall k :: 0 <= k < |elems| ==> !IsUserMessage(elems[k])) && text == "")
  }

  ghost predicate IsLastUserAt(elems: seq<Json>, k: int) {
    && 0 <= k < |elems|
    && IsUserMessage(elems[k])
    && forall j :: k < j < |elems| ==> !IsUserMessage(elems[j])
  }

  lemma {:induction false} FilterThenSearch(elems: seq<Json>)
    ensures IsLastUserContent(elems, LastUserContent(MessagesOf(elems)))
  {
    if elems != [] {
      var n := |elems| - 1;
      FilterThenSearch(elems[..n]);
      SearchStep(elems);
      assert elems == elems[..n] + [elems[n]];
      if IsUserMessage(elems[n]) {
        assert IsLastUserAt(elems, n);
      } else {
        ExtendLastUser(elems[..n], elems[n]);
      }
    }
  }

  lemma SearchStep(elems: seq<Json>)
    requires elems != []
    ensures LastUserContent(MessagesOf(elems)) ==
            if IsUserMessage(elems[|elems| - 1]) then StringField(elems[|elems| - 1].fields, "content")
            else LastUserContent(MessagesOf(elems[..|elems| - 1]))
  {
    var init, last := MessagesOf(elems[..|elems| - 1]), elems[|elems| - 1];
    if last.JObject? {
      assert MessagesOf(elems) == init + [MessageOf(last)];
      assert (init + [MessageOf(last)])[..|init|] == init;
    }
  }

  lemma ExtendLastUser(init: seq<Json>, last: Json)
    requires !IsUserMessage(last)
    ensures forall text :: IsLastUserContent(init, text) ==> IsLastUserContent(init + [last], text)
  {
    var elems := init + [last];
    assert forall k :: IsLastUserAt(init, k) ==> IsLastUserAt(elems, k) && elems[k] == init[k];
  }

  /** For every decoded chat body, parsing and then asking for the prompt yields the content of the
      last array element that is an object with role "user". */
  lemma ChatPrompt(req: HttpRequest)
    requires ForChat(req)
    ensures ParseSpec(req).Ok? <==> req.body.Decoded? && (req.body.value.JObject? || req.body.value.JNull?)
    ensures ParseSpec(req).Ok? && req.body.value.JObject? && "messages" in req.body.value.fields
            && req.body.value.fields["messages"].JArray? ==>
              IsLastUserContent(req.body.value.fields["messages"].elems, PromptSpec(ParseSpec(req).value))
    ensures ParseSpec(req).Ok? && !(req.body.value.JObject? && "messages" in req.body.value.fields
            && req.body.value.fields["messages"].JArray?) ==>
              PromptSpec(ParseSpec(req).value) == ""
  {
    if ParseSpec(req).Ok? && req.body.value.JObject? && "messages" in req.body.value.fields
       && req.body.value.fields["messages"].JArray? {
      FilterThenSearch(req.body.value.fields["messages"].elems);
    }
  }
}
