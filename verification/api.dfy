/** The `POST /chat` endpoint of `main.py`: request validation and dispatch
    to the single shared dialogue manager. JSON parsing is a collaborator;
    its result is the `Body` parameter. */
module Api {
  import opened Outcomes
  import opened Text
  import Dialogue

  const InvalidInputDetail: string := "Invalid input. Please send a valid JSON with a 'message' field."
  const EmptyMessageReply: string := "I'm here to listen. Could you tell me more about how you're feeling?"
  const UnexpectedDetail: string := "An unexpected error occurred. Please try again later."

  /** The parsed request body: not JSON at all, JSON that is not an object,
      or an object with its fields. */
  datatype Body = Unparsable | NotObject | Object(fields: map<string, Value>)

  /** The HTTP answer: 200 with `{"response": ...}`, or an error status with
      its detail text. */
  datatype Reply = Ok(response: string) | HttpError(status: int, detail: string)

  datatype ChatResult = ChatResult(reply: Reply, manager: Dialogue.Manager)

  /** How the handler classifies a request before any turn runs. */
  datatype Dispatch = BadRequest | Empty | Delegate(message: string) | InternalError

  /** The classification the handler's branches amount to. A body that is
      not JSON makes `request.json()` raise an ordinary exception, so it
      lands in the 500 branch; a non-string message makes `.strip()` raise,
      with the same effect. */
  function Classify(body: Body): (d: Dispatch)
    ensures d.BadRequest? <==> body.NotObject? || (body.Object? && "message" !in body.fields)
    ensures d.Empty? <==> body.Object? && "message" in body.fields && body.fields["message"].Str?
                          && AllSpace(body.fields["message"].s)
    ensures d.Delegate? ==> body.Object? && "message" in body.fields && body.fields["message"].Str?
                            && d.message == Strip(body.fields["message"].s) && d.message != []
    ensures d.InternalError? <==> body.Unparsable? || (body.Object? && "message" in body.fields
                                                       && body.fields["message"].NonStr?)
  {
    match body
    case Unparsable => InternalError
    case NotObject => BadRequest
    case Object(fields) =>
      if "message" !in fields then BadRequest else ClassifyMessage(fields["message"])
  }

  /** The classification of a present "message" value: stripped, then
      checked for emptiness. */
  function ClassifyMessage(v: Value): (d: Dispatch)
    ensures d.Empty? <==> v.Str? && AllSpace(v.s)
    ensures d.InternalError? <==> v.NonStr?
    ensures d.Delegate? ==> v.Str? && d.message == Strip(v.s) && d.message != []
    ensures !d.BadRequest?
  {
    match v
    case NonStr => InternalError
    case Str(s) =>
      StripEmptyIff(s);
      if Strip(s) == [] then Empty else Delegate(Strip(s))
  }

  /** `chat`: 400 for a body without a message, the fixed invitation for a
      blank message, the turn's reply for anything else, and 500 for any
      other failure. Only a delegated message touches the manager. */
  function Chat(m: Dialogue.Manager, body: Body, now: int, c: Dialogue.Collaborators): (r: ChatResult)
    ensures Classify(body).BadRequest? ==> r == ChatResult(HttpError(400, InvalidInputDetail), m)
    ensures Classify(body).Empty? ==> r == ChatResult(Ok(EmptyMessageReply), m)
    ensures Classify(body).InternalError? ==> r == ChatResult(HttpError(500, UnexpectedDetail), m)
    ensures Classify(body).Delegate? ==>
      var turn := Dialogue.GenerateResponse(m, Classify(body).message, now, c);
      r == ChatResult(Ok(turn.response), turn.manager)
    ensures r.reply.HttpError? ==> r.reply.status in {400, 500}
    ensures Dialogue.Valid(m) ==> Dialogue.Valid(r.manager)
  {
    match Classify(body)
    case BadRequest => ChatResult(HttpError(400, InvalidInputDetail), m)
    case Empty => ChatResult(Ok(EmptyMessageReply), m)
    case InternalError => ChatResult(HttpError(500, UnexpectedDetail), m)
    case Delegate(message) =>
      var turn := Dialogue.GenerateResponse(m, message, now, c);
      ChatResult(Ok(turn.response), turn.manager)
  }

  /** Whitespace around the message never matters: two bodies whose messages
      strip to the same text get the same answer and the same manager. */
  lemma MessageIsStripped(m: Dialogue.Manager, s: string, now: int, c: Dialogue.Collaborators)
    ensures Chat(m, Object(map["message" := Str(s)]), now, c)
         == Chat(m, Object(map["message" := Str(Strip(s))]), now, c)
  {
    var b1 := Object(map["message" := Str(s)]);
    var b2 := Object(map["message" := Str(Strip(s))]);
    assert Classify(b1) == ClassifyMessage(Str(s));
    assert Classify(b2) == ClassifyMessage(Str(Strip(s)));
    StripIdempotent(s);
    assert ClassifyMessage(Str(s)) == ClassifyMessage(Str(Strip(s)));
    SameClassificationSameChat(m, b1, b2, now, c);
  }

  /** The handler's answer depends on the body only through its classification. */
  lemma SameClassificationSameChat(m: Dialogue.Manager, b1: Body, b2: Body, now: int, c: Dialogue.Collaborators)
    requires Classify(b1) == Classify(b2)
    ensures Chat(m, b1, now, c) == Chat(m, b2, now, c)
  {
  }

  /** A turn recorded through the endpoint always holds a non-blank,
      stripped message. */
  lemma RecordedMessagesAreStripped(m: Dialogue.Manager, body: Body, now: int, c: Dialogue.Collaborators)
    requires Dialogue.Valid(m) && Classify(body).Delegate?
    ensures var r := Chat(m, body, now, c);
      r.manager.memory == m.memory
      || (|r.manager.memory| > 0
          && r.manager.memory[|r.manager.memory| - 1].message == Classify(body).message
          && Strip(Classify(body).message) == Classify(body).message != [])
  {
    var s := body.fields["message"].s;
    var message := Classify(body).message;
    StripIdempotent(s);
    var turn := Dialogue.GenerateResponse(m, message, now, c);
    assert Chat(m, body, now, c).manager == turn.manager;
    if !Dialogue.IsRepeat(m.memory, message) && Dialogue.Route(m, message, c).Success? && m.memoryLimit > 0 {
      Dialogue.SuccessfulTurnAppendsOne(m, message, now, c);
    }
  }
}
