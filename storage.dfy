/** The TypeScript server's in-memory store (server/storage.ts): a message
    array and the id the next message gets. */
module Storage {
  import opened Messages

  class MemStorage {
    var messages: seq<Message>
    var currentId: int

    /** The next id is one past the number of stored messages, whose ids are
        1, 2, ..., n in insertion order. */
    ghost predicate Valid()
      reads this
    {
      currentId == |messages| + 1 && NumberedFromOne(messages)
    }

    /** A new store is empty and hands out id 1 first. */
    constructor()
      ensures messages == [] && currentId == 1
      ensures Valid()
    {
      messages := [];
      currentId := 1;
    }

    /** `getMessages`: the stored messages in insertion order, ids 1..n;
        nothing changes. */
    method GetMessages() returns (r: seq<Message>)
      requires Valid()
      ensures r == messages
      ensures NumberedFromOne(r) && IdsIncrease(r)
    {
      r := messages;
      NumberedIdsIncrease(r);
    }

    /** `addMessage`: stamps the insert with the current id (post-incremented)
        and `now`, and pushes it after the earlier messages. */
    method AddMessage(insert: NewMessage, now: int) returns (m: Message)
      requires Valid()
      modifies this
      ensures Valid()
      ensures m == Stamp(insert, old(currentId), now)
      ensures m.id == |old(messages)| + 1
      ensures messages == old(messages) + [m]
      ensures currentId == old(currentId) + 1
    {
      m := Stamp(insert, currentId, now);
      currentId := currentId + 1;
      messages := messages + [m];
    }

    /** `clearMessages`: an empty store whose next message gets id 1 again. */
    method ClearMessages()
      modifies this
      ensures messages == [] && currentId == 1
      ensures Valid()
    {
      messages := [];
      currentId := 1;
    }
  }
}
