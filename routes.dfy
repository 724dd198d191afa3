/** The TypeScript server's message routes (server/routes.ts) as transitions
    over the shared `MemStorage`. A request body is a parsed JSON value; the
    insert schema is the predicate `Conforms`; the hosted-model call is the
    `Generation` parameter and the two `new Date()` readings are `userTime`
    and `aiTime`. */
module Routes {
  import opened Outcomes
  import opened Fences
  import opened Messages
  import opened Storage
  import HuggingFaceTs

  /** A JSON value as `express.json()` hands it over. Numbers are integers
      here; no rule below looks at their value. */
  datatype Json =
    | Null
    | Bool(b: bool)
    | Number(n: int)
    | Str(s: string)
    | Array(items: seq<Json>)
    | Object(fields: map<string, Json>)

  /** `body` is an object whose `key` holds a string. */
  predicate HasString(body: Json, key: string) {
    body.Object? && key in body.fields && body.fields[key].Str?
  }

  /** The insert schema picks `role` and `content`, both required strings,
      and `codeBlocks`, a JSON column with a default, which may be absent or
      hold any JSON value. */
  predicate Conforms(body: Json) {
    HasString(body, "role") && HasString(body, "content")
  }

  /** Every item is a string. */
  predicate AllStrings(items: seq<Json>) {
    forall i :: 0 <= i < |items| ==> items[i].Str?
  }

  function Strings(items: seq<Json>): (r: seq<string>)
    requires AllStrings(items)
    ensures |r| == |items|
    ensures forall i :: 0 <= i < |items| ==> r[i] == items[i].s
  {
    if items == [] then [] else [items[0].s] + Strings(items[1..])
  }

  /** The code blocks stored for a conforming body: the list of strings it
      carries, and no blocks when `codeBlocks` is absent or anything else. */
  function StoredCodeBlocks(fields: map<string, Json>): seq<string> {
    if "codeBlocks" in fields && fields["codeBlocks"].Array? && AllStrings(fields["codeBlocks"].items)
    then Strings(fields["codeBlocks"].items)
    else []
  }

  /** `insertMessageSchema.parse`: the picked fields of a conforming body,
      or the validation error. */
  function Parse(body: Json): (r: Option<NewMessage>)
    ensures r.Some? <==> Conforms(body)
    ensures r.Some? ==> r.value.role == body.fields["role"].s && r.value.content == body.fields["content"].s
  {
    if Conforms(body)
    then Some(NewMessage(body.fields["role"].s, body.fields["content"].s, StoredCodeBlocks(body.fields)))
    else None
  }

  /** The JSON a client posts for a message. */
  function Encode(m: NewMessage): Json {
    Object(map["role" := Str(m.role), "content" := Str(m.content),
               "codeBlocks" := Array(EncodeStrings(m.codeBlocks))])
  }

  function EncodeStrings(xs: seq<string>): (r: seq<Json>)
    ensures |r| == |xs|
    ensures forall i :: 0 <= i < |xs| ==> r[i] == Str(xs[i])
  {
    if xs == [] then [] else [Str(xs[0])] + EncodeStrings(xs[1..])
  }

  /** A message a client encodes is accepted and read back unchanged. */
  lemma {:induction false} ParseEncode(m: NewMessage)
    ensures Parse(Encode(m)) == Some(m)
  {
    var items := EncodeStrings(m.codeBlocks);
    assert AllStrings(items);
    var back := Strings(items);
    assert back == m.codeBlocks;
  }

  /** What a handler sends: status 200 with messages, the 500 that still
      carries the stored user message, the 400 validation error, or the
      empty 204. */
  datatype Response =
    | Ok(messages: seq<Message>)
    | AiFailed(error: string, messages: seq<Message>)
    | BadRequest
    | NoContent

  function Status(res: Response): int {
    match res
    case Ok(_) => 200
    case AiFailed(_, _) => 500
    case BadRequest => 400
    case NoContent => 204
  }

  const AiFailureError: string := "Failed to get AI response"

  /** GET /api/messages: the stored messages, store unchanged. */
  method Get(storage: MemStorage) returns (res: Response)
    requires storage.Valid()
    ensures res == Ok(storage.messages)
    ensures Status(res) == 200 && NumberedFromOne(res.messages)
  {
    var messages := storage.GetMessages();
    res := Ok(messages);
  }

  /** POST /api/messages: a body failing the schema gets 400 and stores
      nothing; otherwise the message is stored; for role "user" the reply is
      stored after it as an assistant message and both are sent, and when
      the model call fails the user message stays stored and a 500 carries
      it. */
  method Post(storage: MemStorage, body: Json, generation: Generation, userTime: int, aiTime: int)
    returns (res: Response)
    requires storage.Valid()
    modifies storage
    ensures storage.Valid()
    ensures !Conforms(body) ==>
      res == BadRequest && storage.messages == old(storage.messages) && storage.currentId == old(storage.currentId)
    ensures Conforms(body) ==>
      var user := Stamp(Parse(body).value, old(storage.currentId), userTime);
      && (user.role != UserRole ==>
            storage.messages == old(storage.messages) + [user] && res.Ok? && res.messages == [user])
      && (user.role == UserRole && generation.GenerationFailed? ==>
            storage.messages == old(storage.messages) + [user]
            && res.AiFailed? && res.error == AiFailureError && res.messages == [user])
      && (user.role == UserRole && generation.Generated? ==>
            var ai := Message(old(storage.currentId) + 1, AssistantRole,
                              TsContent(generation.text), CodeBlocks(generation.text), aiTime);
            storage.messages == old(storage.messages) + [user, ai] && res.Ok? && res.messages == [user, ai])
  {
    var parsed := Parse(body);
    if parsed.None? {
      res := BadRequest;
      return;
    }
    var messageData := parsed.value;
    var message := storage.AddMessage(messageData, userTime);
    if messageData.role == UserRole {
      var aiResponse := HuggingFaceTs.Chat(generation);
      match aiResponse
      case Success(reply) =>
        var aiMessage := storage.AddMessage(NewMessage(AssistantRole, reply.content, reply.codeBlocks), aiTime);
        res := Ok([message, aiMessage]);
      case Failure(_) =>
        res := AiFailed(AiFailureError, [message]);
    } else {
      res := Ok([message]);
    }
  }

  /** DELETE /api/messages: an empty store and status 204. */
  method Delete(storage: MemStorage) returns (res: Response)
    modifies storage
    ensures storage.messages == [] && storage.currentId == 1 && storage.Valid()
    ensures res == NoContent && Status(res) == 204
  {
    storage.ClearMessages();
    res := NoContent;
  }
}
