/** What the two FastAPI apps (backend/app.py and backend/main.py) share:
    the module-level message list with its id counter, the newest-first view
    `get_messages` returns, and the HTTP error they raise. */
module Backend {
  import opened Messages
  import opened Text

  /** The module globals `messages` and `message_id_counter`. */
  class Globals {
    var messages: seq<Message>
    var counter: int

    /** The counter is one past the number of stored messages, whose ids
        are 1, 2, ..., n in insertion order. */
    ghost predicate Valid()
      reads this
    {
      counter == |messages| + 1 && NumberedFromOne(messages)
    }

    /** The state at import time: no messages, counter 1. */
    constructor()
      ensures messages == [] && counter == 1
      ensures Valid()
    {
      messages := [];
      counter := 1;
    }
  }

  /** `HTTPException(status_code, detail)`. */
  datatype HttpError = HttpError(status: int, detail: string)

  /** `str()` of an `HTTPException`: the status code, ": ", the detail. */
  function ExceptionText(e: HttpError): (r: string)
    requires e.status >= 0
    ensures var code := DecimalString(e.status);
      |r| == |code| + 2 + |e.detail| && r[..|code|] == code && r[|code|..] == ": " + e.detail
  {
    DecimalString(e.status) + ": " + e.detail
  }

  /** `a` is listed before `b` by `get_messages`: newer first, and among
      equal timestamps the one stored earlier (smaller id) first. */
  predicate ListedBefore(a: Message, b: Message) {
    a.timestamp > b.timestamp || (a.timestamp == b.timestamp && a.id < b.id)
  }

  /** Every message is listed before the ones after it. */
  predicate InListedOrder(view: seq<Message>) {
    forall i, j :: 0 <= i < j < |view| ==> ListedBefore(view[i], view[j])
  }

  predicate NewestFirstOrder(view: seq<Message>) {
    forall i, j :: 0 <= i < j < |view| ==> view[i].timestamp >= view[j].timestamp
  }

  /** Inserts `m` into the newest-first `view` after every message at
      least as new as it, so that a later-stored message with an equal
      timestamp stays behind the earlier ones. */
  function InsertNewest(view: seq<Message>, m: Message): seq<Message>
  {
    if view == [] || view[|view| - 1].timestamp >= m.timestamp then view + [m]
    else InsertNewest(view[..|view| - 1], m) + [view[|view| - 1]]
  }

  /** `sorted(messages, key=lambda x: x.timestamp, reverse=True)`: a stable
      sort, newest first, which keeps stored order among equal timestamps. */
  function NewestFirst(log: seq<Message>): (r: seq<Message>)
    ensures multiset(r) == multiset(log)
    decreases |log|
  {
    if log == [] then []
    else
      var front := NewestFirst(log[..|log| - 1]);
      InsertNewestPermutes(front, log[|log| - 1]);
      assert log == log[..|log| - 1] + [log[|log| - 1]];
      InsertNewest(front, log[|log| - 1])
  }

  lemma {:induction false} InsertNewestPermutes(view: seq<Message>, m: Message)
    ensures multiset(InsertNewest(view, m)) == multiset(view) + multiset{m}
    decreases |view|
  {
    if view == [] || view[|view| - 1].timestamp >= m.timestamp {
    } else {
      InsertNewestPermutes(view[..|view| - 1], m);
      assert view == view[..|view| - 1] + [view[|view| - 1]];
    }
  }

  /** What holds of every message inserted holds of every message of the
      result. */
  lemma {:induction false} InsertNewestKeeps(view: seq<Message>, m: Message, P: Message -> bool)
    requires forall i :: 0 <= i < |view| ==> P(view[i])
    requires P(m)
    ensures forall k :: 0 <= k < |InsertNewest(view, m)| ==> P(InsertNewest(view, m)[k])
    decreases |view|
  {
    if view == [] || view[|view| - 1].timestamp >= m.timestamp {
    } else {
      var front := view[..|view| - 1];
      InsertNewestKeeps(front, m, P);
      var inserted := InsertNewest(front, m);
      var r := inserted + [view[|view| - 1]];
      forall k | 0 <= k < |r| ensures P(r[k]) {
        if k < |inserted| {
          assert r[k] == inserted[k];
        }
      }
    }
  }

  lemma {:induction false} NewestFirstKeeps(log: seq<Message>, P: Message -> bool)
    requires forall i :: 0 <= i < |log| ==> P(log[i])
    ensures forall k :: 0 <= k < |NewestFirst(log)| ==> P(NewestFirst(log)[k])
    decreases |log|
  {
    if log != [] {
      var front := log[..|log| - 1];
      NewestFirstKeeps(front, P);
      InsertNewestKeeps(NewestFirst(front), log[|log| - 1], P);
    }
  }

  /** Inserting keeps the view ordered by `ListedBefore` when `m` was stored
      after every message in it. */
  lemma {:induction false} InsertNewestOrdered(view: seq<Message>, m: Message)
    requires InListedOrder(view)
    requires forall i :: 0 <= i < |view| ==> view[i].id < m.id
    ensures InListedOrder(InsertNewest(view, m))
    decreases |view|
  {
    if view == [] || view[|view| - 1].timestamp >= m.timestamp {
    } else {
      var front := view[..|view| - 1];
      var last := view[|view| - 1];
      InsertNewestOrdered(front, m);
      InsertNewestKeeps(front, m, (x: Message) => ListedBefore(x, last));
      var inserted := InsertNewest(front, m);
      var r := inserted + [last];
      forall i, j | 0 <= i < j < |r| ensures ListedBefore(r[i], r[j]) {
        assert r[i] == inserted[i];
        if j < |inserted| {
          assert r[j] == inserted[j];
        } else {
          assert r[j] == last;
        }
      }
    }
  }

  /** With ids increasing in stored order, `get_messages` lists newest first
      and, among equal timestamps, in stored order. */
  lemma {:induction false} NewestFirstOrdered(log: seq<Message>)
    requires IdsIncrease(log)
    ensures InListedOrder(NewestFirst(log))
    decreases |log|
  {
    if log != [] {
      var front := log[..|log| - 1];
      var m := log[|log| - 1];
      assert IdsIncrease(front);
      NewestFirstOrdered(front);
      NewestFirstKeeps(front, (x: Message) => x.id < m.id);
      InsertNewestOrdered(NewestFirst(front), m);
    }
  }

  /** In any case the view is ordered newest first. */
  lemma {:induction false} NewestFirstDescends(log: seq<Message>)
    ensures NewestFirstOrder(NewestFirst(log))
    decreases |log|
  {
    if log != [] {
      NewestFirstDescends(log[..|log| - 1]);
      InsertNewestDescends(NewestFirst(log[..|log| - 1]), log[|log| - 1]);
    }
  }

  lemma {:induction false} InsertNewestDescends(view: seq<Message>, m: Message)
    requires NewestFirstOrder(view)
    ensures NewestFirstOrder(InsertNewest(view, m))
    decreases |view|
  {
    if view == [] || view[|view| - 1].timestamp >= m.timestamp {
    } else {
      var front := view[..|view| - 1];
      var last := view[|view| - 1];
      InsertNewestDescends(front, m);
      InsertNewestKeeps(front, m, (x: Message) => x.timestamp >= last.timestamp);
      var inserted := InsertNewest(front, m);
      var r := inserted + [last];
      forall i, j | 0 <= i < j < |r| ensures r[i].timestamp >= r[j].timestamp {
        assert r[i] == inserted[i];
        if j < |inserted| {
          assert r[j] == inserted[j];
        } else {
          assert r[j] == last;
        }
      }
    }
  }

  /** `get_messages`: every stored message, newest first, stored order
      among equal timestamps; the globals are not touched. */
  method GetMessages(g: Globals) returns (view: seq<Message>)
    requires g.Valid()
    ensures multiset(view) == multiset(g.messages)
    ensures InListedOrder(view)
  {
    view := NewestFirst(g.messages);
    NumberedIdsIncrease(g.messages);
    NewestFirstOrdered(g.messages);
  }

  /** `clear_messages`: an empty list and the counter back at 1; the
      response body is `{"status": "success"}`. */
  method ClearMessages(g: Globals) returns (status: string)
    modifies g
    ensures g.messages == [] && g.counter == 1
    ensures g.Valid()
    ensures status == "success"
  {
    g.messages := [];
    g.counter := 1;
    status := "success";
  }
}
