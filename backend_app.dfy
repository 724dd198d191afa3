/** backend/app.py: a FastAPI app with its own copy of the extraction in
    `get_ai_response`, and `create_message` over the module globals. The
    hosted-model call is the `Generation` parameter and the two
    `datetime.utcnow()` readings are the `userTime` and `aiTime`
    parameters. `get_messages` and `clear_messages` are `Backend.GetMessages`
    and `Backend.ClearMessages`. */
module BackendApp {
  import opened Outcomes
  import opened Text
  import opened Fences
  import opened Messages
  import opened Backend
  import HuggingFacePy

  /** `get_ai_response`: the extracted reply, or `HTTPException(500, str(e))`
      when the model call fails. */
  method GetAiResponse(generation: Generation) returns (r: Result<AiReply, HttpError>)
    ensures generation.Generated? ==>
      r == Success(AiReply(PyContent(generation.text), CodeBlocks(generation.text)))
    ensures generation.GenerationFailed? ==> r == Failure(HttpError(500, generation.reason))
  {
    match generation
    case GenerationFailed(reason) =>
      r := Failure(HttpError(500, reason));
    case Generated(text) =>
      var reply := HuggingFacePy.Extract(text);
      r := Success(reply);
  }

  /** The detail of the 500 that `create_message` raises: its own prefix
      followed by `str()` of the exception `get_ai_response` raised, which
      itself starts with the status code. */
  function FailureDetail(reason: string): (r: string)
    ensures r == HuggingFacePy.FailurePrefix + "500: " + reason
  {
    DecimalIs500();
    HuggingFacePy.FailurePrefix + ExceptionText(HttpError(500, reason))
  }

  lemma {:induction false} DecimalIs500()
    ensures DecimalString(500) == "500"
  {
    assert DecimalString(5) == "5";
    assert DecimalString(50) == "50";
  }

  /** `create_message`: the posted message is stored with the counter as its
      id; for role "user" the reply is stored as an assistant message with
      the next id, and both are returned; when the model call fails the user
      message stays stored and a 500 is raised. */
  method CreateMessage(g: Globals, message: NewMessage, generation: Generation, userTime: int, aiTime: int)
    returns (r: Result<seq<Message>, HttpError>)
    requires g.Valid()
    modifies g
    ensures g.Valid()
    ensures var user := Stamp(message, old(g.counter), userTime);
      && (message.role != UserRole ==>
            g.messages == old(g.messages) + [user] && r.Success? && r.value == [user])
      && (message.role == UserRole && generation.GenerationFailed? ==>
            g.messages == old(g.messages) + [user]
            && r == Failure(HttpError(500, FailureDetail(generation.reason))))
      && (message.role == UserRole && generation.Generated? ==>
            var ai := Message(old(g.counter) + 1, AssistantRole,
                              PyContent(generation.text), CodeBlocks(generation.text), aiTime);
            g.messages == old(g.messages) + [user, ai] && r.Success? && r.value == [user, ai])
  {
    var userMessage := Stamp(message, g.counter, userTime);
    g.counter := g.counter + 1;
    g.messages := g.messages + [userMessage];
    var responseMessages := [userMessage];
    if message.role == UserRole {
      var aiResponse := GetAiResponse(generation);
      match aiResponse
      case Failure(e) =>
        r := Failure(HttpError(500, HuggingFacePy.FailurePrefix + ExceptionText(e)));
        return;
      case Success(reply) =>
        var aiMessage := Message(g.counter, AssistantRole, reply.content, reply.codeBlocks, aiTime);
        g.counter := g.counter + 1;
        g.messages := g.messages + [aiMessage];
        responseMessages := responseMessages + [aiMessage];
    }
    r := Success(responseMessages);
  }
}
