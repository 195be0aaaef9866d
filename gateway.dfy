/** The model gateway (`call_bedrock_model`): it keeps the user and assistant
    turns of a conversation, builds the request, and folds the streamed events
    of the response into one text; any failure along the way becomes a single
    error message instead of an exception. The network call itself is the
    parameter `endpoint`, which maps a request to the stream it returns or to
    the message of the exception it raises. */
module Gateway {
  import opened Wrappers

  // ---------------------------------------------------------------------------
  // Conversation turns and the role filter
  // ---------------------------------------------------------------------------

  /** A message as a caller passes it in: a role, a content and any other keys. */
  datatype Message = Message(role: string, content: string, otherKeys: map<string, string>)

  /** A turn as sent to the model (and kept in the chat history): only the
      role and the content. */
  datatype Turn = Turn(role: string, content: string)

  predicate IsChatRole(role: string)
  {
    role == "user" || role == "assistant"
  }

  function Project(m: Message): Turn
  {
    Turn(m.role, m.content)
  }

  /** `filtered_messages`: the user and assistant messages in their original
      order, each reduced to its role and content. */
  function FilterMessages(messages: seq<Message>): (r: seq<Turn>)
    ensures |r| <= |messages|
    ensures forall i :: 0 <= i < |r| ==> IsChatRole(r[i].role)
  {
    if messages == [] then []
    else
      (if IsChatRole(messages[0].role) then [Project(messages[0])] else [])
      + FilterMessages(messages[1..])
  }

  /** Filtering two consecutive parts is filtering each in turn: the kept turns
      stay in their original order. */
  lemma {:induction false} FilterMessagesAppend(a: seq<Message>, b: seq<Message>)
    ensures FilterMessages(a + b) == FilterMessages(a) + FilterMessages(b)
  {
    if a == [] {
      assert a + b == b;
    } else {
      var head := if IsChatRole(a[0].role) then [Project(a[0])] else [];
      calc {
        FilterMessages(a + b);
        { assert (a + b)[0] == a[0]; assert (a + b)[1..] == a[1..] + b; }
        head + FilterMessages(a[1..] + b);
        { FilterMessagesAppend(a[1..], b); }
        head + (FilterMessages(a[1..]) + FilterMessages(b));
        head + FilterMessages(a[1..]) + FilterMessages(b);
      }
    }
  }

  /** A turn is kept exactly when it comes from a user or assistant message. */
  lemma {:induction false} FilterMessagesMembers(messages: seq<Message>, t: Turn)
    ensures t in FilterMessages(messages) <==>
      exists i :: 0 <= i < |messages| && IsChatRole(messages[i].role) && Project(messages[i]) == t
  {
    if messages != [] {
      FilterMessagesMembers(messages[1..], t);
      if t in FilterMessages(messages[1..]) {
        var i :| 0 <= i < |messages[1..]| && IsChatRole(messages[1..][i].role) && Project(messages[1..][i]) == t;
        assert messages[i + 1] == messages[1..][i];
      }
      if exists i :: 0 <= i < |messages| && IsChatRole(messages[i].role) && Project(messages[i]) == t {
        var i :| 0 <= i < |messages| && IsChatRole(messages[i].role) && Project(messages[i]) == t;
        if i > 0 {
          assert messages[1..][i - 1] == messages[i];
        }
      }
    }
  }

  /** A conversation of user and assistant messages only loses its extra keys. */
  lemma {:induction false} FilterMessagesKeepsChat(messages: seq<Message>)
    requires forall i :: 0 <= i < |messages| ==> IsChatRole(messages[i].role)
    ensures FilterMessages(messages) == seq(|messages|, i requires 0 <= i < |messages| => Project(messages[i]))
  {
    if messages != [] {
      FilterMessagesKeepsChat(messages[1..]);
    }
  }

  // ---------------------------------------------------------------------------
  // The request
  // ---------------------------------------------------------------------------

  const ModelId := "anthropic.claude-v2"
  const MaxTokens: nat := 210
  const AnthropicVersion := "bedrock-2023-05-31"
  const JsonContentType := "application/json"

  /** The JSON body of the request (the sampling parameters are left out). */
  datatype Payload = Payload(messages: seq<Turn>, maxTokens: nat, anthropicVersion: string)

  /** The arguments of `invoke_model_with_response_stream`. */
  datatype Request = Request(modelId: string, body: Payload, contentType: string, accept: string)

  function BuildRequest(messages: seq<Message>): Request
  {
    Request(ModelId, Payload(FilterMessages(messages), MaxTokens, AnthropicVersion),
            JsonContentType, JsonContentType)
  }

  /** The request names Claude v2 through its Bedrock identifier, asks for at
      most 210 tokens in the Bedrock Anthropic format of 2023-05-31, is JSON
      both ways, and carries exactly the user and assistant turns of
      `messages`, in order. */
  lemma RequestContents(messages: seq<Message>)
    ensures var request := BuildRequest(messages);
      && request.modelId == "anthropic.claude-v2"
      && request.contentType == "application/json" && request.accept == "application/json"
      && request.body.maxTokens == 210 && request.body.anthropicVersion == "bedrock-2023-05-31"
      && forall t :: t in request.body.messages <==>
           exists i :: 0 <= i < |messages| && IsChatRole(messages[i].role) && Project(messages[i]) == t
  {
    forall t ensures t in FilterMessages(messages) <==>
      exists i :: 0 <= i < |messages| && IsChatRole(messages[i].role) && Project(messages[i]) == t
    {
      FilterMessagesMembers(messages, t);
    }
  }

  // ---------------------------------------------------------------------------
  // The response stream
  // ---------------------------------------------------------------------------

  /** The `text` key of a delta: missing (read as ""), a string, or some other
      JSON value, which joining the output later rejects (its message given). */
  datatype TextField = NoText | Text(s: string) | NotText(joinError: string)

  /** The `delta` key of a decoded chunk: missing (read as `{}`), an object, or
      some other JSON value, on which `.get` raises (its message given). */
  datatype Delta =
    | NoDelta
    | DeltaObject(kind: Option<string>, text: TextField)
    | DeltaNotObject(getError: string)

  /** The decoded bytes of a chunk: an object with its `type` (None when missing
      or not a string) and its `delta`, or bytes that could not be decoded into
      an object (the message of the exception that raised). */
  datatype Chunk = Record(kind: Option<string>, delta: Delta) | Undecodable(decodeError: string)

  /** A stream event: the chunk it carries, None when it carries none. */
  type Event = Option<Chunk>

  /** An item of the `output` list: a string, or a non-string value. */
  datatype Piece = Str(s: string) | NotStr(joinError: string)

  /** One pass of the loop body: what it appends to `output`, if anything, or
      the message of the exception it raises. */
  function EventPiece(e: Event): Result<Option<Piece>, string>
  {
    match e
    case None => Success(None)
    case Some(Undecodable(err)) => Failure(err)
    case Some(Record(kind, delta)) =>
      if kind != Some("content_block_delta") then Success(None)
      else match delta
        case NoDelta => Success(None)
        case DeltaNotObject(err) => Failure(err)
        case DeltaObject(dkind, text) =>
          if dkind != Some("text_delta") then Success(None)
          else match text
            case NoText => Success(Some(Str("")))
            case Text(s) => Success(Some(Str(s)))
            case NotText(err) => Success(Some(NotStr(err)))
  }

  /** The event carries a chunk of type `content_block_delta` whose delta is
      an object of type `text_delta`. */
  predicate IsTextDelta(e: Event)
  {
    && e.Some? && e.value.Record? && e.value.kind == Some("content_block_delta")
    && e.value.delta.DeltaObject? && e.value.delta.kind == Some("text_delta")
  }

  /** Handling the event raises: its bytes do not decode, or it is a content
      block delta whose `delta` is not an object. */
  predicate Raises(e: Event)
  {
    && e.Some?
    && (|| e.value.Undecodable?
        || (e.value.kind == Some("content_block_delta") && e.value.delta.DeltaNotObject?))
  }

  /** The loop appends to `output` for text deltas only, and raises exactly on
      undecodable chunks and on non-object deltas of content block deltas. */
  lemma EventPieceCases(e: Event)
    ensures (EventPiece(e).Success? && EventPiece(e).value.Some?) <==> IsTextDelta(e)
    ensures EventPiece(e).Failure? <==> Raises(e)
    ensures IsTextDelta(e) && e.value.delta.text.Text? ==>
      EventPiece(e) == Success(Some(Str(e.value.delta.text.s)))
    ensures IsTextDelta(e) && e.value.delta.text.NoText? ==> EventPiece(e) == Success(Some(Str("")))
  {
  }

  /** The state of `output` after the loop has run over `events`, or the
      message of the exception the loop raised. */
  function Collected(events: seq<Event>): Result<seq<Piece>, string>
  {
    if events == [] then Success([])
    else match Collected(events[..|events| - 1])
      case Failure(err) => Failure(err)
      case Success(output) =>
        match EventPiece(events[|events| - 1])
        case Failure(err) => Failure(err)
        case Success(None) => Success(output)
        case Success(Some(p)) => Success(output + [p])
  }

  /** The loop `for event in stream`, appending to `output`; it computes
      `Collected`. */
  method CollectOutput(events: seq<Event>) returns (r: Result<seq<Piece>, string>)
    ensures r == Collected(events)
  {
    var output: seq<Piece> := [];
    var i := 0;
    while i < |events|
      invariant 0 <= i <= |events|
      invariant Collected(events[..i]) == Success(output)
    {
      assert events[..i + 1][..i] == events[..i];
      match EventPiece(events[i]) {
        case Failure(err) =>
          assert Collected(events[..i + 1]) == Failure(err);
          CollectedFailureSticks(events, i + 1, err);
          return Failure(err);
        case Success(None) =>
        case Success(Some(p)) =>
          output := output + [p];
      }
      i := i + 1;
    }
    assert events[..i] == events;
    return Success(output);
  }

  /** Once the loop has raised, later events do not matter. */
  lemma {:induction false} CollectedFailureSticks(events: seq<Event>, n: nat, err: string)
    requires n <= |events| && Collected(events[..n]) == Failure(err)
    ensures Collected(events) == Failure(err)
    decreases |events| - n
  {
    if n < |events| {
      assert events[..n + 1][..n] == events[..n];
      CollectedFailureSticks(events, n + 1, err);
    } else {
      assert events[..n] == events;
    }
  }

  /** `"".join(output)`: the concatenation, or the message of the error for
      the first item that is not a string. */
  function JoinPieces(pieces: seq<Piece>): Result<string, string>
  {
    if pieces == [] then Success("")
    else match pieces[0]
      case NotStr(err) => Failure(err)
      case Str(s) =>
        match JoinPieces(pieces[1..])
        case Failure(err) => Failure(err)
        case Success(rest) => Success(s + rest)
  }

  const ErrorPrefix := "Erro ao chamar o modelo: "

  /** What `call_bedrock_model` returns for the outcome of the network call:
      the assembled text, or the error message. */
  function StreamReply(response: Result<seq<Event>, string>): string
  {
    match response
    case Failure(err) => ErrorPrefix + err
    case Success(events) =>
      match Collected(events)
      case Failure(err) => ErrorPrefix + err
      case Success(output) =>
        match JoinPieces(output)
        case Failure(err) => ErrorPrefix + err
        case Success(text) => text
  }

  /** The reply of the model gateway for `messages`. */
  function ModelReply(messages: seq<Message>, endpoint: Request -> Result<seq<Event>, string>): string
  {
    StreamReply(endpoint(BuildRequest(messages)))
  }

  /** `call_bedrock_model(messages)`; it computes `ModelReply`, that is
      `StreamReply` of the endpoint's response to `BuildRequest(messages)`. */
  method CallModel(messages: seq<Message>, endpoint: Request -> Result<seq<Event>, string>)
    returns (reply: string)
    ensures reply == ModelReply(messages, endpoint)
  {
    var request := BuildRequest(messages);
    var response := endpoint(request);
    match response
    case Failure(err) =>
      reply := ErrorPrefix + err;
    case Success(events) =>
      var output := CollectOutput(events);
      match output
      case Failure(err) =>
        reply := ErrorPrefix + err;
      case Success(pieces) =>
        match JoinPieces(pieces)
        case Failure(err) =>
          reply := ErrorPrefix + err;
        case Success(text) =>
          reply := text;
  }

  // ---------------------------------------------------------------------------
  // What the stream fold computes
  // ---------------------------------------------------------------------------

  /** The event raises nothing and, if it contributes, contributes a string. */
  predicate Clean(e: Event)
  {
    EventPiece(e).Success? && (EventPiece(e).value.Some? ==> EventPiece(e).value.value.Str?)
  }

  /** The text an event contributes: the `text` of a text delta inside a
      content block delta (`""` when missing), and nothing for every other
      event. */
  function DeltaText(e: Event): string
  {
    match e
    case Some(Record(Some("content_block_delta"), DeltaObject(Some("text_delta"), text))) =>
      (match text case Text(s) => s case _ => "")
    case _ => ""
  }

  /** For a clean event, the text it contributes is what the loop appends. */
  lemma DeltaTextOfClean(e: Event)
    requires Clean(e)
    ensures EventPiece(e).value.None? ==> DeltaText(e) == ""
    ensures EventPiece(e).value.Some? ==> EventPiece(e).value.value == Str(DeltaText(e))
  {
  }

  /** The texts of the events, concatenated in arrival order. */
  function StreamText(events: seq<Event>): string
  {
    if events == [] then "" else DeltaText(events[0]) + StreamText(events[1..])
  }

  lemma {:induction false} StreamTextAppend(a: seq<Event>, b: seq<Event>)
    ensures StreamText(a + b) == StreamText(a) + StreamText(b)
  {
    if a == [] {
      assert a + b == b;
    } else {
      assert (a + b)[1..] == a[1..] + b;
      StreamTextAppend(a[1..], b);
    }
  }

  lemma {:induction false} JoinPiecesAppend(a: seq<Piece>, s: string)
    requires JoinPieces(a).Success?
    ensures JoinPieces(a + [Str(s)]) == Success(JoinPieces(a).value + s)
  {
    if a == [] {
      assert a + [Str(s)] == [Str(s)];
      assert [Str(s)][1..] == [];
      assert s + "" == s && "" + s == s;
    } else {
      assert a[0].Str?;
      assert (a + [Str(s)])[0] == a[0];
      assert (a + [Str(s)])[1..] == a[1..] + [Str(s)];
      JoinPiecesAppend(a[1..], s);
      var rest := JoinPieces(a[1..]).value;
      assert a[0].s + (rest + s) == (a[0].s + rest) + s;
    }
  }

  /** A stream of clean events is received in full: the reply is the in-order
      concatenation of the texts of its text deltas, and every other event is
      ignored. */
  lemma {:induction false} CleanStreamReply(events: seq<Event>)
    requires forall i :: 0 <= i < |events| ==> Clean(events[i])
    ensures Collected(events).Success?
    ensures JoinPieces(Collected(events).value) == Success(StreamText(events))
    ensures StreamReply(Success(events)) == StreamText(events)
  {
    if events != [] {
      var init := events[..|events| - 1];
      var last := events[|events| - 1];
      CleanStreamReply(init);
      assert events == init + [last];
      StreamTextAppend(init, [last]);
      assert StreamText([last]) == DeltaText(last);
      DeltaTextOfClean(last);
      match EventPiece(last).value
      case None =>
        assert Collected(events) == Collected(init);
        assert StreamText(events) == StreamText(init) + "";
        assert StreamText(init) + "" == StreamText(init);
      case Some(p) =>
        JoinPiecesAppend(Collected(init).value, p.s);
    }
  }

  /** The first event whose handling raises decides the reply: the error
      prefix followed by that exception's message. */
  lemma {:induction false} FirstFailureReply(events: seq<Event>, i: nat)
    requires i < |events| && EventPiece(events[i]).Failure?
    requires forall j :: 0 <= j < i ==> EventPiece(events[j]).Success?
    ensures StreamReply(Success(events)) == ErrorPrefix + EventPiece(events[i]).error
  {
    CollectedOfRaisingFree(events[..i]);
    assert events[..i + 1][..i] == events[..i];
    CollectedFailureSticks(events, i + 1, EventPiece(events[i]).error);
  }

  /** Without a raising event the loop runs to the end. */
  lemma {:induction false} CollectedOfRaisingFree(events: seq<Event>)
    requires forall j :: 0 <= j < |events| ==> EventPiece(events[j]).Success?
    ensures Collected(events).Success?
  {
    if events != [] {
      var init := events[..|events| - 1];
      CollectedOfRaisingFree(init);
    }
  }

  /** Ignored events do not change the reply. */
  lemma IgnoredEventAddsNothing(a: seq<Event>, e: Event, b: seq<Event>)
    requires Clean(e) && DeltaText(e) == ""
    ensures StreamText(a + [e] + b) == StreamText(a + b)
  {
    StreamTextAppend(a + [e], b);
    StreamTextAppend(a, [e]);
    StreamTextAppend(a, b);
    assert StreamText([e]) == DeltaText(e);
  }
  /** A piece that is not a string makes `"".join` raise. */
  lemma {:induction false} JoinPiecesFailsOnNotStr(pieces: seq<Piece>, k: nat)
    requires k < |pieces| && pieces[k].NotStr?
    ensures JoinPieces(pieces).Failure?
  {
    if k > 0 && pieces[0].Str? {
      assert pieces[1..][k - 1] == pieces[k];
      JoinPiecesFailsOnNotStr(pieces[1..], k - 1);
    }
  }

  /** When the loop runs to the end over a stream holding an event that is not
      clean, that event has put a non-string into `output`. */
  lemma {:induction false} UncleanEventLeavesNotStr(events: seq<Event>, i: nat)
    requires i < |events| && !Clean(events[i])
    requires Collected(events).Success?
    ensures exists k :: 0 <= k < |Collected(events).value| && Collected(events).value[k].NotStr?
  {
    var init := events[..|events| - 1];
    var last := events[|events| - 1];
    assert Collected(init).Success?;
    var output := Collected(init).value;
    if i == |events| - 1 {
      assert Collected(events).value == output + [EventPiece(last).value.value];
      assert Collected(events).value[|output|].NotStr?;
    } else {
      assert init[i] == events[i];
      UncleanEventLeavesNotStr(init, i);
      var k :| 0 <= k < |output| && output[k].NotStr?;
      assert Collected(events).value[k] == output[k];
    }
  }

  /** The reply is the stream's text exactly when the call returned a stream of
      clean events; in every other case (the call raised, an event raised, or a
      non-string text reached the join) it is an error message. */
  lemma StreamReplyTextOrError(response: Result<seq<Event>, string>)
    ensures (response.Success? && forall i :: 0 <= i < |response.value| ==> Clean(response.value[i])) ==>
      StreamReply(response) == StreamText(response.value)
    ensures !(response.Success? && forall i :: 0 <= i < |response.value| ==> Clean(response.value[i])) ==>
      ErrorPrefix <= StreamReply(response)
  {
    match response
    case Failure(err) =>
    case Success(events) =>
      if forall i :: 0 <= i < |events| ==> Clean(events[i]) {
        CleanStreamReply(events);
      } else if Collected(events).Success? {
        var i :| 0 <= i < |events| && !Clean(events[i]);
        UncleanEventLeavesNotStr(events, i);
        var k :| 0 <= k < |Collected(events).value| && Collected(events).value[k].NotStr?;
        JoinPiecesFailsOnNotStr(Collected(events).value, k);
      }
  }
}
