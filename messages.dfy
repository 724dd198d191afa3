/** The chat data model shared by the TypeScript server and the Python
    backend: a stored message, the fields a client sends, the assistant's
    reply, and the outcome of the hosted-model call. */
module Messages {

  /** A stored chat turn. `timestamp` is the clock value supplied when the
      message was stored. */
  datatype Message = Message(
    id: int,
    role: string,
    content: string,
    codeBlocks: seq<string>,
    timestamp: int)

  /** What a client posts: the insert schema's role, content and code blocks. */
  datatype NewMessage = NewMessage(role: string, content: string, codeBlocks: seq<string>)

  /** Text and code blocks extracted from a model answer. */
  datatype AiReply = AiReply(content: string, codeBlocks: seq<string>)

  /** Outcome of the hosted text-generation call: the generated text, or the
      message of the error it raised. */
  datatype Generation = Generated(text: string) | GenerationFailed(reason: string)

  const UserRole: string := "user"
  const AssistantRole: string := "assistant"

  /** The stored form of `m`: the given id and timestamp, the rest unchanged. */
  function Stamp(m: NewMessage, id: int, timestamp: int): Message
  {
    Message(id, m.role, m.content, m.codeBlocks, timestamp)
  }

  /** Ids are 1, 2, ..., n in insertion order. */
  predicate NumberedFromOne(log: seq<Message>) {
    forall i :: 0 <= i < |log| ==> log[i].id == i + 1
  }

  /** Ids grow strictly along the log, so no two messages share one. */
  predicate IdsIncrease(log: seq<Message>) {
    forall i, j :: 0 <= i < j < |log| ==> log[i].id < log[j].id
  }

  /** Numbered messages have increasing ids. */
  lemma {:induction false} NumberedIdsIncrease(log: seq<Message>)
    requires NumberedFromOne(log)
    ensures IdsIncrease(log)
  {
  }
}
