/** The bounded conversation history of `src/persistence.rs`: a FIFO of
    role-tagged messages that never holds more than `MaxHistoricalMessages`
    entries. Rust's `VecDeque` is modelled as an immutable sequence whose
    index 0 is the front (the oldest message). */
module History {
  import opened Wrappers

  /** The chat roles of the completion API's request messages. */
  datatype Role = System | User | Assistant

  /** One request message: who said it, what was said, and an optional author name. */
  datatype Message = Message(role: Role, content: string, name: Option<string>)

  /** The capacity of the history. */
  const MaxHistoricalMessages: nat := 20

  function Min(a: int, b: int): int
  {
    if a <= b then a else b
  }

  /** The last `n` elements of `s`, in their original order. */
  function Last<T>(s: seq<T>, n: nat): seq<T>
    requires n <= |s|
  {
    s[|s| - n..]
  }

  /** The newest `MaxHistoricalMessages` elements of `s`, or all of `s`
      when it is no longer than that. */
  function Window(s: seq<Message>): (w: seq<Message>)
    ensures |w| == Min(|s|, MaxHistoricalMessages)
    ensures w == Last(s, |w|)
  {
    if |s| <= MaxHistoricalMessages then s else s[|s| - MaxHistoricalMessages..]
  }

  /** The message `store_message` pushes: the given role and content, no name. */
  function Fresh(role: Role, content: string): Message
  {
    Message(role, content, None)
  }

  /** The eviction loop of `store_message`: while the history is at capacity,
      drop its front element. What is left is the newest
      `min(|history|, MaxHistoricalMessages - 1)` messages, in order. */
  function Evict(history: seq<Message>): (r: seq<Message>)
    ensures |r| == Min(|history|, MaxHistoricalMessages - 1)
    ensures r == Last(history, |r|)
    decreases |history|
  {
    if |history| >= MaxHistoricalMessages then Evict(history[1..]) else history
  }

  /** `store_message`: evict from the front, then push the new message at the back. */
  function StoreMessage(history: seq<Message>, content: string, role: Role): seq<Message>
  {
    Evict(history) + [Fresh(role, content)]
  }

  /** After a store the history respects the capacity, keeps the newest
      messages it had in their order, and ends with the new message, which
      has no author name; below capacity nothing is evicted. */
  lemma StoreMessageBounded(history: seq<Message>, content: string, role: Role)
    ensures var r := StoreMessage(history, content, role);
      && |r| <= MaxHistoricalMessages
      && |r| == Min(|history|, MaxHistoricalMessages - 1) + 1
      && r[..|r| - 1] == Last(history, |r| - 1)
      && r[|r| - 1] == Message(role, content, None)
      && (|history| < MaxHistoricalMessages ==> r == history + [Message(role, content, None)])
  {
    var r := StoreMessage(history, content, role);
    assert r[..|r| - 1] == Evict(history);
  }

  /** `store_message` as the source writes it: a loop of front pops followed
      by one push at the back. The `&mut VecDeque` is modelled by taking the
      history by value and returning the updated sequence. */
  method StoreMessageLoop(history: seq<Message>, content: string, role: Role)
    returns (r: seq<Message>)
    ensures r == StoreMessage(history, content, role)
  {
    var deque := history;
    while |deque| >= MaxHistoricalMessages
      invariant Evict(deque) == Evict(history)
      decreases |deque|
    {
      deque := deque[1..];
    }
    r := deque + [Fresh(role, content)];
  }

  /** One store is a sliding window: the newest 20 messages of the history
      extended by the new message. */
  lemma StoreMessageIsWindow(history: seq<Message>, content: string, role: Role)
    ensures StoreMessage(history, content, role) == Window(history + [Fresh(role, content)])
  {
    var r := StoreMessage(history, content, role);
    var w := Window(history + [Fresh(role, content)]);
    StoreMessageBounded(history, content, role);
    assert |r| == |w|;
    forall k | 0 <= k < |r|
      ensures r[k] == w[k]
    {
      if k < |r| - 1 {
        assert r[k] == r[..|r| - 1][k];
      }
    }
  }

  /** The messages that storing `entries` in turn pushes, in order. */
  function FreshAll(entries: seq<(Role, string)>): (ms: seq<Message>)
    ensures |ms| == |entries|
    decreases |entries|
  {
    if |entries| == 0 then []
    else
      var e := entries[|entries| - 1];
      FreshAll(entries[..|entries| - 1]) + [Fresh(e.0, e.1)]
  }

  /** Calling `store_message` once per entry, in order (main.rs stores the
      user prompt and then the reply on every turn). */
  function StoreAll(history: seq<Message>, entries: seq<(Role, string)>): seq<Message>
    decreases |entries|
  {
    if |entries| == 0 then history
    else
      var init := entries[..|entries| - 1];
      var e := entries[|entries| - 1];
      StoreMessage(StoreAll(history, init), e.1, e.0)
  }

  /** Windowing before appending one more message changes nothing once the
      result is windowed again. */
  lemma WindowOfWindow(s: seq<Message>, m: Message)
    ensures Window(Window(s) + [m]) == Window(s + [m])
  {
    if |s| > MaxHistoricalMessages {
      var a := Window(s) + [m];
      var b := s + [m];
      assert |Window(a)| == |Window(b)|;
      forall k | 0 <= k < MaxHistoricalMessages
        ensures Window(a)[k] == Window(b)[k]
      {
        assert Window(a)[k] == a[k + 1];
        assert Window(b)[k] == b[|b| - MaxHistoricalMessages + k];
      }
    }
  }

  /** Storing any non-empty run of entries keeps exactly the newest 20
      messages of the old history followed by the pushed ones, in insertion
      order. An empty run leaves the history alone, so the history must then
      already respect the bound. */
  lemma {:induction false} StoreAllIsWindow(history: seq<Message>, entries: seq<(Role, string)>)
    requires |entries| > 0 || |history| <= MaxHistoricalMessages
    ensures StoreAll(history, entries) == Window(history + FreshAll(entries))
    decreases |entries|
  {
    if |entries| == 0 {
      assert history + FreshAll(entries) == history;
    } else {
      var init := entries[..|entries| - 1];
      var e := entries[|entries| - 1];
      var m := Fresh(e.0, e.1);
      var s := history + FreshAll(init);
      assert history + FreshAll(entries) == s + [m];
      if |init| == 0 {
        assert s == history;
        StoreMessageIsWindow(history, e.1, e.0);
      } else {
        StoreAllIsWindow(history, init);
        StoreMessageIsWindow(Window(s), e.1, e.0);
        WindowOfWindow(s, m);
      }
    }
  }

  /** Storing N messages into an empty history leaves the last `min(N, 20)`
      of them in insertion order; with N > 20 the first N - 20 are gone and
      the oldest survivor is message number N - 20 (counting from 0). */
  lemma StoreAllFromEmpty(entries: seq<(Role, string)>)
    ensures StoreAll([], entries) == Last(FreshAll(entries), Min(|entries|, MaxHistoricalMessages))
    ensures |entries| > MaxHistoricalMessages ==>
              && |StoreAll([], entries)| == MaxHistoricalMessages
              && StoreAll([], entries)[0] == FreshAll(entries)[|entries| - MaxHistoricalMessages]
  {
    StoreAllIsWindow([], entries);
    assert [] + FreshAll(entries) == FreshAll(entries);
  }
}
